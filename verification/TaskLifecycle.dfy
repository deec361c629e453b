/** The life of scan tasks (`executor.py`, `routes.py`, `ratelimit.py`) as a machine whose
    steps are the blocks of code between two awaits.  One task id may have several
    executions alive: a retry can start while a cancelled execution is winding down. */
module TaskLifecycle {

  type TaskId = string

  datatype Status = Queued | Running | Completed | Failed | Cancelled

  // ------------------------------------------------------------- the slot limiter

  function AcquireSlot(slots: seq<TaskId>, max: nat, id: TaskId): seq<TaskId> {
    if |slots| >= max then slots else slots + [id]
  }

  /** The first entry of `id` goes. */
  function ReleaseSlot(slots: seq<TaskId>, id: TaskId): seq<TaskId> {
    if slots == [] then []
    else if slots[0] == id then slots[1..]
    else [slots[0]] + ReleaseSlot(slots[1..], id)
  }

  lemma {:induction false} ReleaseTakesOne(slots: seq<TaskId>, id: TaskId)
    ensures multiset(ReleaseSlot(slots, id)) == multiset(slots) - multiset{id}
    ensures |ReleaseSlot(slots, id)| <= |slots|
  {
    if slots == [] {
    } else {
      assert slots == [slots[0]] + slots[1..];
      ReleaseTakesOne(slots[1..], id);
    }
  }

  lemma {:induction false} ReleaseAt(slots: seq<TaskId>, i: nat, id: TaskId)
    requires i < |slots| && slots[i] == id && id !in slots[..i]
    ensures ReleaseSlot(slots, id) == slots[..i] + slots[i + 1..]
  {
    if i == 0 {
    } else {
      assert slots[0] == slots[..i][0];
      assert slots[1..][..i - 1] == slots[..i][1..];
      ReleaseAt(slots[1..], i - 1, id);
    }
  }

  lemma {:induction false} ReleaseAbsent(slots: seq<TaskId>, id: TaskId)
    requires id !in slots
    ensures ReleaseSlot(slots, id) == slots
  {
    if slots == [] {
    } else {
      ReleaseAbsent(slots[1..], id);
    }
  }

  class ConcurrentTaskLimiter {
    const maxConcurrent: nat
    var runningTasks: seq<TaskId>

    constructor (maxConcurrent: nat)
      ensures this.maxConcurrent == maxConcurrent && runningTasks == []
    {
      this.maxConcurrent, runningTasks := maxConcurrent, [];
    }

    method Acquire(id: TaskId) returns (acquired: bool)
      modifies this
      ensures acquired <==> |old(runningTasks)| < maxConcurrent
      ensures runningTasks == AcquireSlot(old(runningTasks), maxConcurrent, id)
      ensures runningTasks == if acquired then old(runningTasks) + [id] else old(runningTasks)
      ensures |old(runningTasks)| <= maxConcurrent ==> |runningTasks| <= maxConcurrent
    {
      if |runningTasks| >= maxConcurrent {
        return false;
      }
      runningTasks := runningTasks + [id];
      acquired := true;
    }

    method Release(id: TaskId)
      modifies this
      ensures runningTasks == ReleaseSlot(old(runningTasks), id)
    {
      var i := 0;
      while i < |runningTasks| && runningTasks[i] != id
        invariant i <= |runningTasks| && runningTasks == old(runningTasks)
        invariant id !in runningTasks[..i]
      {
        i := i + 1;
      }
      if i < |runningTasks| {
        ReleaseAt(runningTasks, i, id);
        runningTasks := runningTasks[..i] + runningTasks[i + 1..];
      } else {
        assert runningTasks == runningTasks[..i];
        ReleaseAbsent(runningTasks, id);
      }
    }
  }

  // ------------------------------------------------------------------ the machine

  /** Where an execution is: scheduled, registered but not claimed, in the try block, in an
      exception handler that has not written the status yet, or on its way to `finally`. */
  datatype Phase = Scheduled | Registered | Body | InFailure | InCancel | Closing

  datatype Exec = Exec(task: TaskId, phase: Phase, wrote: bool)

  /** Steps that a request has bound itself to but not taken yet. */
  datatype Todo =
    | Acquire(id: TaskId)
    | MarkFailed(id: TaskId)
    | Signal(id: TaskId, x: nat)
    | CancelWrite(id: TaskId)
    | Recheck(id: TaskId)
    | Remove(id: TaskId)

  datatype State = State(
    rows: map<TaskId, Status>,
    slots: seq<TaskId>,
    execs: map<nat, Exec>,        // live executions
    running: map<TaskId, nat>,    // the executor's table of running tasks
    pending: set<nat>,            // executions that will resume with a cancellation
    todo: multiset<Todo>,
    next: nat,                    // executions started so far
    claimant: map<TaskId, nat>,   // the last execution that claimed the row
    enqueued: map<TaskId, nat>,   // times the row became queued
    claimed: map<TaskId, nat>)    // times it became running

  const EMPTY := State(map[], [], map[], map[], {}, multiset{}, 0, map[], map[], map[])

  /** What a signalled execution does when it resumes: the execution enters its cancel handler (an ongoing
      claim may have been applied), it leaves the handler it is in (an ongoing write may have
      been applied), or it absorbs the cancellation. */
  datatype Effect = Handle(applied: bool) | Abandon(applied: bool) | Absorb

  datatype Event =
    | Create(id: TaskId)
    | Retry(id: TaskId)
    | Do(t: Todo)
    | Begin(x: nat)
    | Claim(x: nat)
    | ClaimRaises(x: nat, applied: bool)
    | FinalWrite(x: nat, ok: bool)
    | Return(x: nat)
    | Raise(x: nat)
    | HandlerWrite(x: nat)
    | Cancel(id: TaskId)
    | Resume(x: nat, effect: Effect)
    | Delete(id: TaskId)
    | Finally(x: nat)

  function Times(m: map<TaskId, nat>, id: TaskId): nat { if id in m then m[id] else 0 }

  predicate Has(s: State, x: nat, p: Phase) { x in s.execs && s.execs[x].phase == p }

  /** An execution may take a step of its own unless it has been signalled. */
  predicate At(s: State, x: nat, p: Phase) { Has(s, x, p) && x !in s.pending }

  predicate Is(s: State, id: TaskId, st: Status) { id in s.rows && s.rows[id] == st }

  /** `UPDATE ... WHERE id = ?` */
  function Write(s: State, id: TaskId, st: Status): State {
    if id in s.rows then s.(rows := s.rows[id := st]) else s
  }

  /** `UPDATE ... WHERE id = ? AND status = 'running'` */
  function WriteCancelled(s: State, id: TaskId): State {
    if Is(s, id, Running) then Write(s, id, Cancelled) else s
  }

  function Move(s: State, x: nat, p: Phase, wrote: bool): State
    requires x in s.execs
  {
    s.(execs := s.execs[x := s.execs[x].(phase := p, wrote := wrote)])
  }

  function Enqueue(s: State, id: TaskId): State {
    s.(rows := s.rows[id := Queued],
       enqueued := s.enqueued[id := Times(s.enqueued, id) + 1],
       todo := s.todo + multiset{Acquire(id)})
  }

  /** The claim `... SET status = 'running' WHERE id = ? AND status = 'queued'`. */
  function TakeRow(s: State, x: nat): State
    requires x in s.execs
  {
    var id := s.execs[x].task;
    if Is(s, id, Queued) then
      Write(s, id, Running).(claimant := s.claimant[id := x],
                             claimed := s.claimed[id := Times(s.claimed, id) + 1])
    else s
  }

  /** A held slot and the execution it is for. */
  function Schedule(max: nat, s: State, id: TaskId): State {
    s.(slots := AcquireSlot(s.slots, max, id),
       execs := s.execs[s.next := Exec(id, Scheduled, false)], next := s.next + 1)
  }

  function Perform(max: nat, s: State, t: Todo): State {
    match t
    case Acquire(id) =>
      if |s.slots| < max then Schedule(max, s, id) else s.(todo := s.todo + multiset{MarkFailed(id)})
    case MarkFailed(id) => Write(s, id, Failed)
    case Signal(id, x) =>
      s.(todo := s.todo + multiset{CancelWrite(id)}, pending := if x in s.execs then s.pending + {x} else s.pending)
    case CancelWrite(id) => WriteCancelled(s, id)
    case Recheck(id) => if Is(s, id, Running) then s else s.(todo := s.todo + multiset{Remove(id)})
    case Remove(id) => s.(rows := s.rows - {id})
  }

  function Deliver(s: State, x: nat, e: Effect): State
    requires x in s.execs
  {
    var ex := s.execs[x];
    match e
    case Absorb => s
    case Handle(applied) =>
      if ex.phase == Registered then Move(if applied then TakeRow(s, x) else s, x, InCancel, ex.wrote)
      else if ex.phase == Body then Move(s, x, InCancel, ex.wrote)
      else s
    case Abandon(applied) =>
      if ex.phase == InFailure then
        Move(if applied then Write(s, ex.task, Failed) else s, x, Closing, ex.wrote || applied)
      else if ex.phase == InCancel then
        Move(if applied then WriteCancelled(s, ex.task) else s, x, Closing, ex.wrote || applied)
      else s
  }

  predicate Enabled(s: State, e: Event) {
    match e
    case Create(id) => id !in s.rows && id !in s.enqueued
    case Retry(id) => Is(s, id, Failed) || Is(s, id, Cancelled)
    case Do(t) => t in s.todo
    case Begin(x) => At(s, x, Scheduled)
    case Claim(x) => At(s, x, Registered)
    case ClaimRaises(x, _) => At(s, x, Registered)
    case FinalWrite(x, _) => At(s, x, Body)
    case Return(x) => At(s, x, Body) && s.execs[x].wrote
    case Raise(x) => At(s, x, Body)
    case HandlerWrite(x) => At(s, x, InFailure) || At(s, x, InCancel)
    case Cancel(id) => id in s.running && s.running[id] in s.execs
    case Resume(x, _) => x in s.pending && x in s.execs
    case Delete(id) => !Is(s, id, Running)
    case Finally(x) => At(s, x, Closing)
  }

  function OnClaim(s: State, x: nat): State
    requires x in s.execs
  {
    var id := s.execs[x].task;
    if Is(s, id, Queued) then Move(TakeRow(s, x), x, Body, false)
    else Move(s.(running := s.running - {id}), x, Closing, false)
  }

  function OnFinalWrite(s: State, x: nat, ok: bool): State
    requires x in s.execs
  {
    Move(Write(s, s.execs[x].task, if ok then Completed else Failed), x, Body, true)
  }

  function OnHandlerWrite(s: State, x: nat): State
    requires x in s.execs
  {
    var id := s.execs[x].task;
    Move(if s.execs[x].phase == InFailure then Write(s, id, Failed) else WriteCancelled(s, id), x, Closing, true)
  }

  function OnFinally(s: State, x: nat): State
    requires x in s.execs
  {
    var id := s.execs[x].task;
    s.(running := s.running - {id}, slots := ReleaseSlot(s.slots, id), execs := s.execs - {x})
  }

  /** An event that is not enabled does not happen. */
  function Step(max: nat, s: State, e: Event): State {
    if !Enabled(s, e) then s
    else
      match e
      case Create(id) => Enqueue(s, id)
      case Retry(id) => Enqueue(s, id)
      case Do(t) => Perform(max, s.(todo := s.todo - multiset{t}), t)
      case Begin(x) => Move(s.(running := s.running[s.execs[x].task := x]), x, Registered, false)
      case Claim(x) => OnClaim(s, x)
      case ClaimRaises(x, applied) => Move(if applied then TakeRow(s, x) else s, x, InFailure, false)
      case FinalWrite(x, ok) => OnFinalWrite(s, x, ok)
      case Return(x) => Move(s, x, Closing, true)
      case Raise(x) => Move(s, x, InFailure, s.execs[x].wrote)
      case HandlerWrite(x) => OnHandlerWrite(s, x)
      case Cancel(id) => s.(todo := s.todo + multiset{Signal(id, s.running[id])})
      case Resume(x, effect) => Deliver(s.(pending := s.pending - {x}), x, effect)
      case Delete(id) => s.(todo := s.todo + multiset{Recheck(id)})
      case Finally(x) => OnFinally(s, x)
  }

  function Run(max: nat, es: seq<Event>): State {
    if es == [] then EMPTY else Step(max, Run(max, es[..|es| - 1]), es[|es| - 1])
  }

  // ------------------------------------------------------ slots match executions

  function ExecsOf(execs: map<nat, Exec>, id: TaskId): set<nat> {
    set x | x in execs && execs[x].task == id
  }

  /** As many slots are held under each id as it has scheduled or live executions. */
  ghost predicate SlotsMatch(max: nat, s: State) {
    && |s.slots| <= max
    && (forall x | x in s.execs :: x < s.next)
    && (forall id :: multiset(s.slots)[id] == |ExecsOf(s.execs, id)|)
  }

  ghost predicate SameExecs(s: State, s': State) {
    && s'.slots == s.slots && s'.next == s.next && s'.execs.Keys == s.execs.Keys
    && (forall x | x in s.execs :: s'.execs[x].task == s.execs[x].task)
  }

  lemma SameExecsMatch(max: nat, s: State, s': State)
    requires SlotsMatch(max, s) && SameExecs(s, s')
    ensures SlotsMatch(max, s')
  {
    forall id ensures ExecsOf(s'.execs, id) == ExecsOf(s.execs, id) {
    }
  }

  lemma ScheduleMatches(max: nat, s: State, id: TaskId)
    requires SlotsMatch(max, s) && |s.slots| < max
    ensures SlotsMatch(max, Schedule(max, s, id))
  {
    ScheduledExecs(s.execs, s.next, Exec(id, Scheduled, false));
    assert AcquireSlot(s.slots, max, id) == s.slots + [id];
  }

  lemma ScheduledExecs(execs: map<nat, Exec>, x: nat, ex: Exec)
    requires x !in execs
    ensures forall o :: |ExecsOf(execs[x := ex], o)| == |ExecsOf(execs, o)| + if o == ex.task then 1 else 0
  {
    forall o ensures |ExecsOf(execs[x := ex], o)| == |ExecsOf(execs, o)| + if o == ex.task then 1 else 0 {
      if o == ex.task {
        assert ExecsOf(execs[x := ex], o) == ExecsOf(execs, o) + {x};
      } else {
        assert ExecsOf(execs[x := ex], o) == ExecsOf(execs, o);
      }
    }
  }

  lemma FinallyMatches(max: nat, s: State, x: nat)
    requires x in s.execs && SlotsMatch(max, s)
    ensures SlotsMatch(max, OnFinally(s, x))
  {
    var s', id := OnFinally(s, x), s.execs[x].task;
    ReleaseTakesOne(s.slots, id);
    forall o ensures multiset(s'.slots)[o] == |ExecsOf(s'.execs, o)| {
      assert x in ExecsOf(s.execs, id);
      assert ExecsOf(s'.execs, o) == ExecsOf(s.execs, o) - if o == id then {x} else {};
    }
  }

  // -------------------------------------------- a running row has a live claimant

  predicate Unwritten(ex: Exec) { ex.phase in {Body, InFailure, InCancel} && !ex.wrote }

  predicate LiveClaimant(s: State, id: TaskId) {
    && id in s.claimant && s.claimant[id] in s.execs
    && s.execs[s.claimant[id]].task == id
    && Unwritten(s.execs[s.claimant[id]])
  }

  /** The row is running and `x` is the last execution that claimed it. */
  predicate Claims(s: State, x: nat) {
    x in s.execs && Is(s, s.execs[x].task, Running) && s.execs[x].task in s.claimant && s.claimant[s.execs[x].task] == x
  }

  /** The table of running tasks points at live executions, and none has written a status
      before its claim. */
  ghost predicate WellTracked(s: State) {
    && (forall id | id in s.running :: s.running[id] in s.execs && s.execs[s.running[id]].task == id)
    && (forall x | x in s.execs && s.execs[x].phase in {Scheduled, Registered} :: !s.execs[x].wrote)
    && (forall x | x in s.execs :: x < s.next)
  }

  /** A running row has a live last claimant that has not written a final status, or else
      (if `late` allows it) a cancel request that is about to overwrite the row. */
  ghost predicate Tracked(s: State, id: TaskId, late: bool) {
    Is(s, id, Running) ==> LiveClaimant(s, id) || (late && CancelWrite(id) in s.todo)
  }

  ghost predicate Covered(s: State, id: TaskId) {
    && (id in s.rows ==> id in s.enqueued)
    && Times(s.claimed, id) + (if Is(s, id, Queued) then 1 else 0) <= Times(s.enqueued, id)
  }

  ghost predicate Sound(s: State, late: bool) {
    WellTracked(s) && forall id :: Tracked(s, id, late) && Covered(s, id)
  }

  lemma EnqueueSound(s: State, id: TaskId, late: bool)
    requires Sound(s, late)
    ensures Sound(Enqueue(s, id), late)
  {
    forall o ensures Tracked(Enqueue(s, id), o, late) && Covered(Enqueue(s, id), o) {
      assert Tracked(s, o, late) && Covered(s, o);
    }
  }

  /** A final status may be written at any time. */
  lemma WriteSound(s: State, id: TaskId, st: Status, late: bool)
    requires Sound(s, late) && st in {Completed, Failed, Cancelled}
    ensures Sound(Write(s, id, st), late)
  {
    forall o ensures Tracked(Write(s, id, st), o, late) && Covered(Write(s, id, st), o) {
      assert Tracked(s, o, late) && Covered(s, o);
    }
  }

  lemma RemoveSound(s: State, id: TaskId, late: bool)
    requires Sound(s, late)
    ensures Sound(s.(rows := s.rows - {id}), late)
  {
    forall o ensures Tracked(s.(rows := s.rows - {id}), o, late) && Covered(s.(rows := s.rows - {id}), o) {
      assert Tracked(s, o, late) && Covered(s, o);
    }
  }

  /** Cancel requests may be forgotten only for rows that are not running. */
  lemma TodoSound(s: State, todo: multiset<Todo>, late: bool)
    requires Sound(s, late)
    requires forall id | CancelWrite(id) in s.todo && Is(s, id, Running) :: CancelWrite(id) in todo
    ensures Sound(s.(todo := todo), late)
  {
    forall o ensures Tracked(s.(todo := todo), o, late) && Covered(s.(todo := todo), o) {
      assert Tracked(s, o, late) && Covered(s, o);
    }
  }

  lemma RunningTableSound(s: State, running: map<TaskId, nat>, late: bool)
    requires Sound(s, late)
    requires forall id | id in running :: running[id] in s.execs && s.execs[running[id]].task == id
    ensures Sound(s.(running := running), late)
  {
    forall o ensures Tracked(s.(running := running), o, late) && Covered(s.(running := running), o) {
      assert Tracked(s, o, late) && Covered(s, o);
    }
  }

  lemma PendingSound(s: State, pending: set<nat>, late: bool)
    requires Sound(s, late)
    ensures Sound(s.(pending := pending), late)
  {
    forall o ensures Tracked(s.(pending := pending), o, late) && Covered(s.(pending := pending), o) {
      assert Tracked(s, o, late) && Covered(s, o);
    }
  }

  /** An execution may move anywhere unless its row counts on it. */
  lemma MoveSound(s: State, x: nat, p: Phase, wrote: bool, late: bool)
    requires Sound(s, late) && x in s.execs && (p in {Scheduled, Registered} ==> !wrote)
    requires Claims(s, x) ==>
               || !Unwritten(s.execs[x]) || Unwritten(Exec(s.execs[x].task, p, wrote))
               || (late && CancelWrite(s.execs[x].task) in s.todo)
    ensures Sound(Move(s, x, p, wrote), late)
  {
    forall o ensures Tracked(Move(s, x, p, wrote), o, late) && Covered(Move(s, x, p, wrote), o) {
      assert Tracked(s, o, late) && Covered(s, o);
    }
  }

  /** A claim makes the row running and its execution the claimant, in one step. */
  lemma TakeRowSound(s: State, x: nat, p: Phase, late: bool)
    requires Sound(s, late) && x in s.execs && Is(s, s.execs[x].task, Queued) && p in {Body, InFailure, InCancel}
    ensures Sound(Move(TakeRow(s, x), x, p, false), late)
  {
    var s' := Move(TakeRow(s, x), x, p, false);
    forall o ensures Tracked(s', o, late) && Covered(s', o) {
      assert Tracked(s, o, late) && Covered(s, o);
    }
  }

  lemma AcquireSound(max: nat, s: State, id: TaskId, late: bool)
    requires Sound(s, late)
    ensures Sound(Perform(max, s, Acquire(id)), late)
  {
    if |s.slots| < max {
      var s' := Schedule(max, s, id);
      forall o ensures Tracked(s', o, late) && Covered(s', o) {
        assert Tracked(s, o, late) && Covered(s, o);
      }
    } else {
      TodoSound(s, s.todo + multiset{MarkFailed(id)}, late);
    }
  }

  lemma CancelWriteSound(s: State, id: TaskId, late: bool)
    requires Sound(s, late)
    ensures var u := WriteCancelled(s, id);
            Sound(u.(todo := u.todo - multiset{CancelWrite(id)}), late)
  {
    var u := WriteCancelled(s, id);
    if Is(s, id, Running) {
      WriteSound(s, id, Cancelled, late);
    }
    TodoSound(u, u.todo - multiset{CancelWrite(id)}, late);
  }

  lemma SignalSound(s: State, id: TaskId, x: nat, late: bool)
    requires Sound(s, late)
    ensures Sound(s.(todo := s.todo + multiset{CancelWrite(id)},
                     pending := if x in s.execs then s.pending + {x} else s.pending), late)
  {
    var u := s.(todo := s.todo + multiset{CancelWrite(id)});
    TodoSound(s, u.todo, late);
    PendingSound(u, if x in s.execs then s.pending + {x} else s.pending, late);
  }

  lemma PerformSound(max: nat, s: State, t: Todo, late: bool)
    requires Sound(s, late) && t in s.todo
    ensures Sound(Perform(max, s.(todo := s.todo - multiset{t}), t), late)
  {
    if t.CancelWrite? {
      CancelWriteSound(s, t.id, late);
    } else {
      var u := s.(todo := s.todo - multiset{t});
      TodoSound(s, u.todo, late);
      match t {
        case Acquire(id) => AcquireSound(max, u, id, late);
        case MarkFailed(id) => WriteSound(u, id, Failed, late);
        case Signal(id, x) => SignalSound(u, id, x, late);
        case Recheck(id) => TodoSound(u, u.todo + multiset{Remove(id)}, late);
        case Remove(id) => RemoveSound(u, id, late);
      }
    }
  }

  lemma ClaimSound(s: State, x: nat, late: bool)
    requires Sound(s, late) && Has(s, x, Registered)
    ensures Sound(OnClaim(s, x), late)
  {
    var id := s.execs[x].task;
    if Is(s, id, Queued) {
      TakeRowSound(s, x, Body, late);
    } else {
      RunningTableSound(s, s.running - {id}, late);
      MoveSound(s.(running := s.running - {id}), x, Closing, false, late);
    }
  }

  lemma HandlerWriteSound(s: State, x: nat, late: bool)
    requires Sound(s, late) && (Has(s, x, InFailure) || Has(s, x, InCancel))
    ensures Sound(OnHandlerWrite(s, x), late)
  {
    var id := s.execs[x].task;
    var u := if s.execs[x].phase == InFailure then Write(s, id, Failed) else WriteCancelled(s, id);
    WriteSound(s, id, Failed, late);
    WriteSound(s, id, Cancelled, late);
    MoveSound(u, x, Closing, true, late);
  }

  lemma FinallySound(s: State, x: nat, late: bool)
    requires Sound(s, late) && Has(s, x, Closing)
    ensures Sound(OnFinally(s, x), late)
  {
    var s' := OnFinally(s, x);
    forall o ensures Tracked(s', o, late) && Covered(s', o) {
      assert Tracked(s, o, late) && Covered(s, o);
    }
  }

  lemma HandleSound(s: State, x: nat, applied: bool, late: bool)
    requires Sound(s, late) && x in s.execs
    ensures Sound(Deliver(s, x, Handle(applied)), late)
  {
    var ex := s.execs[x];
    if ex.phase == Registered && applied && Is(s, ex.task, Queued) {
      TakeRowSound(s, x, InCancel, late);
    } else if ex.phase in {Registered, Body} {
      MoveSound(s, x, InCancel, ex.wrote, late);
    }
  }

  /** Leaving a handler without its write is safe only behind a cancel request. */
  lemma AbandonSound(s: State, x: nat, applied: bool)
    requires Sound(s, true) && x in s.execs && Backed(s, x)
    ensures Sound(Deliver(s, x, Abandon(applied)), true)
  {
    var ex := s.execs[x];
    WriteSound(s, ex.task, Failed, true);
    WriteSound(s, ex.task, Cancelled, true);
    if ex.phase == InFailure {
      MoveSound(if applied then Write(s, ex.task, Failed) else s, x, Closing, ex.wrote || applied, true);
    } else if ex.phase == InCancel {
      MoveSound(if applied then WriteCancelled(s, ex.task) else s, x, Closing, ex.wrote || applied, true);
    }
  }

  lemma ResumeSound(s: State, x: nat, e: Effect, late: bool)
    requires Sound(s, late) && x in s.execs && (e.Abandon? ==> late && Backed(s, x))
    ensures Sound(Deliver(s.(pending := s.pending - {x}), x, e), late)
  {
    var u := s.(pending := s.pending - {x});
    PendingSound(s, u.pending, late);
    match e {
      case Absorb =>
      case Handle(applied) => HandleSound(u, x, applied, late);
      case Abandon(applied) => AbandonSound(u, x, applied);
    }
  }

  lemma ClaimRaisesSound(s: State, x: nat, applied: bool, late: bool)
    requires Sound(s, late) && Has(s, x, Registered)
    ensures Sound(Move(if applied then TakeRow(s, x) else s, x, InFailure, false), late)
  {
    if applied && Is(s, s.execs[x].task, Queued) {
      TakeRowSound(s, x, InFailure, late);
    } else {
      MoveSound(s, x, InFailure, false, late);
    }
  }

  lemma StepKeepsSound(max: nat, s: State, e: Event, late: bool)
    requires Sound(s, late) && Enabled(s, e)
    requires e.Resume? && e.effect.Abandon? ==> late && Backed(s, e.x)
    ensures Sound(Step(max, s, e), late)
  {
    match e {
      case Create(id) => EnqueueSound(s, id, late);
      case Retry(id) => EnqueueSound(s, id, late);
      case Do(t) => PerformSound(max, s, t, late);
      case Begin(x) =>
        RunningTableSound(s, s.running[s.execs[x].task := x], late);
        MoveSound(s.(running := s.running[s.execs[x].task := x]), x, Registered, false, late);
      case Claim(x) => ClaimSound(s, x, late);
      case ClaimRaises(x, applied) => ClaimRaisesSound(s, x, applied, late);
      case FinalWrite(x, ok) =>
        var st := if ok then Completed else Failed;
        WriteSound(s, s.execs[x].task, st, late);
        MoveSound(Write(s, s.execs[x].task, st), x, Body, true, late);
      case Return(x) => MoveSound(s, x, Closing, true, late);
      case Raise(x) => MoveSound(s, x, InFailure, s.execs[x].wrote, late);
      case HandlerWrite(x) => HandlerWriteSound(s, x, late);
      case Cancel(id) => TodoSound(s, s.todo + multiset{Signal(id, s.running[id])}, late);
      case Resume(x, effect) => ResumeSound(s, x, effect, late);
      case Delete(id) => TodoSound(s, s.todo + multiset{Recheck(id)}, late);
      case Finally(x) => FinallySound(s, x, late);
    }
  }

  lemma PerformSameExecs(max: nat, s: State, t: Todo)
    requires t.Acquire? ==> |s.slots| >= max
    ensures SameExecs(s, Perform(max, s, t))
  {
  }

  lemma MoveSameExecs(s: State, u: State, x: nat, p: Phase, wrote: bool)
    requires SameExecs(s, u) && x in s.execs
    ensures SameExecs(s, Move(u, x, p, wrote))
  {
  }

  lemma DeliverSameExecs(s: State, x: nat, e: Effect)
    requires x in s.execs
    ensures SameExecs(s, Deliver(s, x, e))
  {
    var ex := s.execs[x];
    match e {
      case Absorb =>
      case Handle(applied) =>
        if ex.phase in {Registered, Body} {
          MoveSameExecs(s, if ex.phase == Registered && applied then TakeRow(s, x) else s, x, InCancel, ex.wrote);
        }
      case Abandon(applied) =>
        if ex.phase == InFailure {
          MoveSameExecs(s, if applied then Write(s, ex.task, Failed) else s, x, Closing, ex.wrote || applied);
        } else if ex.phase == InCancel {
          MoveSameExecs(s, if applied then WriteCancelled(s, ex.task) else s, x, Closing, ex.wrote || applied);
        }
    }
  }

  lemma HandlerWriteSameExecs(s: State, x: nat)
    requires x in s.execs
    ensures SameExecs(s, Move(Write(s, s.execs[x].task, Failed), x, Closing, true))
    ensures SameExecs(s, Move(WriteCancelled(s, s.execs[x].task), x, Closing, true))
  {
    MoveSameExecs(s, Write(s, s.execs[x].task, Failed), x, Closing, true);
    MoveSameExecs(s, WriteCancelled(s, s.execs[x].task), x, Closing, true);
  }

  lemma ClaimSameExecs(s: State, x: nat, p: Phase)
    requires x in s.execs
    ensures SameExecs(s, Move(TakeRow(s, x), x, p, false))
    ensures SameExecs(s, Move(s.(running := s.running - {s.execs[x].task}), x, Closing, false))
    ensures SameExecs(s, Move(s.(running := s.running[s.execs[x].task := x]), x, Registered, false))
  {
    MoveSameExecs(s, TakeRow(s, x), x, p, false);
    MoveSameExecs(s, s.(running := s.running - {s.execs[x].task}), x, Closing, false);
    MoveSameExecs(s, s.(running := s.running[s.execs[x].task := x]), x, Registered, false);
  }

  /** Only scheduling and `finally` change the set of live executions. */
  lemma OtherStepSameExecs(max: nat, s: State, e: Event)
    requires Enabled(s, e) && !e.Finally? && !e.Do? && !e.Resume?
    ensures SameExecs(s, Step(max, s, e))
  {
    match e {
      case Create(_) =>
      case Retry(_) =>
      case Delete(_) =>
      case Cancel(_) =>
      case ClaimRaises(x, applied) =>
        MoveSameExecs(s, if applied then TakeRow(s, x) else s, x, InFailure, false);
      case Begin(x) => ClaimSameExecs(s, x, Body);
      case Claim(x) => ClaimSameExecs(s, x, Body);
      case FinalWrite(x, ok) =>
        MoveSameExecs(s, Write(s, s.execs[x].task, if ok then Completed else Failed), x, Body, true);
      case Return(x) => MoveSameExecs(s, s, x, Closing, true);
      case Raise(x) => MoveSameExecs(s, s, x, InFailure, s.execs[x].wrote);
      case HandlerWrite(x) => HandlerWriteSameExecs(s, x);
    }
  }

  lemma StepKeepsSlots(max: nat, s: State, e: Event)
    requires SlotsMatch(max, s) && Enabled(s, e)
    ensures SlotsMatch(max, Step(max, s, e))
  {
    match e {
      case Do(t) =>
        var u := s.(todo := s.todo - multiset{t});
        SameExecsMatch(max, s, u);
        if t.Acquire? && |s.slots| < max {
          ScheduleMatches(max, u, t.id);
        } else {
          PerformSameExecs(max, u, t);
          SameExecsMatch(max, u, Perform(max, u, t));
        }
      case Resume(x, effect) =>
        var u := s.(pending := s.pending - {x});
        SameExecsMatch(max, s, u);
        DeliverSameExecs(u, x, effect);
        SameExecsMatch(max, u, Deliver(u, x, effect));
      case Finally(x) => FinallyMatches(max, s, x);
      case _ =>
        OtherStepSameExecs(max, s, e);
        SameExecsMatch(max, s, Step(max, s, e));
    }
  }

  // ------------------------------------------------- signals carry cancel requests

  /** If the row counts on `x`, a cancel request is about to overwrite the row. */
  predicate Backed(s: State, x: nat) { Claims(s, x) ==> CancelWrite(s.execs[x].task) in s.todo }

  /** A signalled execution is live and backed by a cancel request, and a signal on its way is
      meant for an execution of its own id, if that is still alive. */
  ghost predicate Signalled(s: State) {
    && (forall x | x in s.pending :: x in s.execs && Backed(s, x))
    && (forall id, x: nat | Signal(id, x) in s.todo :: x < s.next && (x in s.execs ==> s.execs[x].task == id))
  }

  lemma RowsSignalled(s: State, rows: map<TaskId, Status>)
    requires Signalled(s) && forall id | id in rows && rows[id] == Running :: Is(s, id, Running)
    ensures Signalled(s.(rows := rows))
  {
    var s' := s.(rows := rows);
    forall x | x in s'.pending ensures x in s'.execs && Backed(s', x) {
      assert Backed(s, x);
    }
  }

  lemma WriteSignalled(s: State, id: TaskId, st: Status)
    requires Signalled(s) && st != Running
    ensures Signalled(Write(s, id, st))
  {
    if id in s.rows {
      RowsSignalled(s, s.rows[id := st]);
    }
  }

  lemma TodoSignalled(s: State, todo: multiset<Todo>)
    requires Signalled(s) && forall t: Todo | t.Signal? && t in todo :: t in s.todo
    requires forall id | CancelWrite(id) in s.todo && Is(s, id, Running) :: CancelWrite(id) in todo
    ensures Signalled(s.(todo := todo))
  {
    var s' := s.(todo := todo);
    forall x | x in s'.pending ensures x in s'.execs && Backed(s', x) {
      assert Backed(s, x);
    }
  }

  lemma TableSignalled(s: State, running: map<TaskId, nat>)
    requires Signalled(s)
    ensures Signalled(s.(running := running))
  {
    var s' := s.(running := running);
    forall x | x in s'.pending ensures x in s'.execs && Backed(s', x) {
      assert Backed(s, x);
    }
  }

  lemma CalmSignalled(s: State, x: nat)
    requires Signalled(s)
    ensures Signalled(s.(pending := s.pending - {x}))
  {
    var s' := s.(pending := s.pending - {x});
    forall y | y in s'.pending ensures y in s'.execs && Backed(s', y) {
      assert Backed(s, y);
    }
  }

  lemma MoveSignalled(s: State, x: nat, p: Phase, wrote: bool)
    requires Signalled(s) && x in s.execs
    ensures Signalled(Move(s, x, p, wrote))
  {
    var s' := Move(s, x, p, wrote);
    forall y | y in s'.pending ensures y in s'.execs && Backed(s', y) {
      assert Backed(s, y);
    }
  }

  /** Only an execution that is not signalled becomes a claimant. */
  lemma TakeRowSignalled(s: State, x: nat)
    requires Signalled(s) && x in s.execs && x !in s.pending
    ensures Signalled(TakeRow(s, x))
  {
    var s' := TakeRow(s, x);
    forall y | y in s'.pending ensures y in s'.execs && Backed(s', y) {
      assert Backed(s, y);
    }
  }

  lemma EnqueueSignalled(s: State, id: TaskId)
    requires Signalled(s)
    ensures Signalled(Enqueue(s, id))
  {
    RowsSignalled(s, s.rows[id := Queued]);
    var u := s.(rows := s.rows[id := Queued]);
    TodoSignalled(u, s.todo + multiset{Acquire(id)});
    var s' := Enqueue(s, id);
    forall y | y in s'.pending ensures y in s'.execs && Backed(s', y) {
      assert Backed(s, y);
    }
  }

  lemma ScheduleSignalled(max: nat, s: State, id: TaskId)
    requires Signalled(s) && s.next !in s.execs
    ensures Signalled(Schedule(max, s, id))
  {
    var s' := Schedule(max, s, id);
    forall y | y in s'.pending ensures y in s'.execs && Backed(s', y) {
      assert Backed(s, y);
    }
  }

  lemma FinallySignalled(s: State, x: nat)
    requires Signalled(s) && x in s.execs && x !in s.pending
    ensures Signalled(OnFinally(s, x))
  {
    var s' := OnFinally(s, x);
    forall y | y in s'.pending ensures y in s'.execs && Backed(s', y) {
      assert Backed(s, y);
    }
  }

  lemma SignalSignalled(max: nat, s: State, id: TaskId, x: nat)
    requires Signalled(s) && Signal(id, x) in s.todo
    ensures Signalled(Perform(max, s.(todo := s.todo - multiset{Signal(id, x)}), Signal(id, x)))
  {
    var s' := Perform(max, s.(todo := s.todo - multiset{Signal(id, x)}), Signal(id, x));
    forall y | y in s'.pending ensures y in s'.execs && Backed(s', y) {
      assert y in s.pending || (y == x && s.execs[x].task == id);
    }
  }

  lemma AcquireSignalled(max: nat, s: State, id: TaskId)
    requires Signalled(s) && s.next !in s.execs
    ensures Signalled(Perform(max, s, Acquire(id)))
  {
    if |s.slots| < max {
      ScheduleSignalled(max, s, id);
    } else {
      TodoSignalled(s, s.todo + multiset{MarkFailed(id)});
    }
  }

  lemma CancelWriteSignalled(s: State, id: TaskId)
    requires Signalled(s)
    ensures var u := WriteCancelled(s, id);
            Signalled(u.(todo := u.todo - multiset{CancelWrite(id)}))
  {
    var u := WriteCancelled(s, id);
    WriteSignalled(s, id, Cancelled);
    TodoSignalled(u, u.todo - multiset{CancelWrite(id)});
  }

  lemma PerformSignalled(max: nat, s: State, t: Todo)
    requires Signalled(s) && t in s.todo && s.next !in s.execs
    ensures Signalled(Perform(max, s.(todo := s.todo - multiset{t}), t))
  {
    var u := s.(todo := s.todo - multiset{t});
    if t.Signal? {
      SignalSignalled(max, s, t.id, t.x);
    } else if t.CancelWrite? {
      CancelWriteSignalled(s, t.id);
    } else {
      TodoSignalled(s, u.todo);
      match t {
        case Acquire(id) => AcquireSignalled(max, u, id);
        case MarkFailed(id) => WriteSignalled(u, id, Failed);
        case Recheck(id) => TodoSignalled(u, u.todo + multiset{Remove(id)});
        case Remove(id) => RowsSignalled(u, u.rows - {id});
      }
    }
  }

  lemma ResumeSignalled(s: State, x: nat, e: Effect)
    requires Signalled(s) && x in s.execs
    ensures Signalled(Deliver(s.(pending := s.pending - {x}), x, e))
  {
    var u, ex := s.(pending := s.pending - {x}), s.execs[x];
    CalmSignalled(s, x);
    match e {
      case Absorb =>
      case Handle(applied) =>
        TakeRowSignalled(u, x);
        if ex.phase in {Registered, Body} {
          MoveSignalled(if ex.phase == Registered && applied then TakeRow(u, x) else u, x, InCancel, ex.wrote);
        }
      case Abandon(applied) =>
        WriteSignalled(u, ex.task, Failed);
        WriteSignalled(u, ex.task, Cancelled);
        if ex.phase == InFailure {
          MoveSignalled(if applied then Write(u, ex.task, Failed) else u, x, Closing, ex.wrote || applied);
        } else if ex.phase == InCancel {
          MoveSignalled(if applied then WriteCancelled(u, ex.task) else u, x, Closing, ex.wrote || applied);
        }
    }
  }

  lemma ClaimSignalled(s: State, x: nat)
    requires Signalled(s) && At(s, x, Registered)
    ensures Signalled(OnClaim(s, x))
  {
    TakeRowSignalled(s, x);
    MoveSignalled(TakeRow(s, x), x, Body, false);
    TableSignalled(s, s.running - {s.execs[x].task});
    MoveSignalled(s.(running := s.running - {s.execs[x].task}), x, Closing, false);
  }

  lemma HandlerWriteSignalled(s: State, x: nat)
    requires Signalled(s) && x in s.execs
    ensures Signalled(OnHandlerWrite(s, x))
  {
    WriteSignalled(s, s.execs[x].task, Failed);
    WriteSignalled(s, s.execs[x].task, Cancelled);
    MoveSignalled(if s.execs[x].phase == InFailure then Write(s, s.execs[x].task, Failed)
                  else WriteCancelled(s, s.execs[x].task), x, Closing, true);
  }

  lemma StepKeepsSignalled(max: nat, s: State, e: Event)
    requires WellTracked(s) && Signalled(s) && Enabled(s, e)
    ensures Signalled(Step(max, s, e))
  {
    match e {
      case Create(id) => EnqueueSignalled(s, id);
      case Retry(id) => EnqueueSignalled(s, id);
      case Do(t) => PerformSignalled(max, s, t);
      case Begin(x) =>
        TableSignalled(s, s.running[s.execs[x].task := x]);
        MoveSignalled(s.(running := s.running[s.execs[x].task := x]), x, Registered, false);
      case Claim(x) => ClaimSignalled(s, x);
      case ClaimRaises(x, applied) =>
        TakeRowSignalled(s, x);
        MoveSignalled(if applied then TakeRow(s, x) else s, x, InFailure, false);
      case FinalWrite(x, ok) =>
        var st := if ok then Completed else Failed;
        WriteSignalled(s, s.execs[x].task, st);
        MoveSignalled(Write(s, s.execs[x].task, st), x, Body, true);
      case Return(x) => MoveSignalled(s, x, Closing, true);
      case Raise(x) => MoveSignalled(s, x, InFailure, s.execs[x].wrote);
      case HandlerWrite(x) => HandlerWriteSignalled(s, x);
      case Cancel(id) => CaptureSignalled(s, id);
      case Resume(x, effect) => ResumeSignalled(s, x, effect);
      case Delete(id) => TodoSignalled(s, s.todo + multiset{Recheck(id)});
      case Finally(x) => FinallySignalled(s, x);
    }
  }

  lemma CaptureSignalled(s: State, id: TaskId)
    requires WellTracked(s) && Signalled(s) && id in s.running
    ensures Signalled(s.(todo := s.todo + multiset{Signal(id, s.running[id])}))
  {
    var s' := s.(todo := s.todo + multiset{Signal(id, s.running[id])});
    forall y | y in s'.pending ensures y in s'.execs && Backed(s', y) {
      assert Backed(s, y);
    }
  }

  // ---------------------------------------------------------- one claim for each enqueue

  /** How often the row was claimed since it last became queued. */
  function Since(max: nat, es: seq<Event>, id: TaskId): int {
    if es == [] then 0
    else
      var n := |es| - 1;
      var s, s' := Run(max, es[..n]), Run(max, es);
      if Times(s'.enqueued, id) > Times(s.enqueued, id) then 0
      else Since(max, es[..n], id) + Times(s'.claimed, id) - Times(s.claimed, id)
  }

  /** The row becomes queued, or it is claimed out of being queued, or neither. */
  ghost predicate ClaimsOnce(s: State, s': State, id: TaskId) {
    || Times(s'.enqueued, id) > Times(s.enqueued, id)
    || (Times(s'.claimed, id) == Times(s.claimed, id) && (Is(s', id, Queued) ==> Is(s, id, Queued)))
    || (Times(s'.claimed, id) == Times(s.claimed, id) + 1 && Is(s, id, Queued) && !Is(s', id, Queued))
  }

  lemma ScheduleClaimsOnce(max: nat, s: State, u: State, o: TaskId, id: TaskId)
    requires u.rows == s.rows && u.enqueued == s.enqueued && u.claimed == s.claimed
    ensures ClaimsOnce(s, Perform(max, u, Acquire(o)), id)
  {}

  lemma PerformWriteClaimsOnce(max: nat, s: State, u: State, o: TaskId, id: TaskId)
    requires u.rows == s.rows && u.enqueued == s.enqueued && u.claimed == s.claimed
    ensures ClaimsOnce(s, Perform(max, u, MarkFailed(o)), id)
    ensures ClaimsOnce(s, Perform(max, u, CancelWrite(o)), id)
  {
    WriteClaimsOnce(u, o, Failed, id);
    WriteClaimsOnce(u, o, Cancelled, id);
  }

  lemma PerformClaimsOnce(max: nat, s: State, t: Todo, id: TaskId)
    ensures ClaimsOnce(s, Perform(max, s.(todo := s.todo - multiset{t}), t), id)
  {
    var u := s.(todo := s.todo - multiset{t});
    match t {
      case Acquire(o) => ScheduleClaimsOnce(max, s, u, o, id);
      case MarkFailed(o) => PerformWriteClaimsOnce(max, s, u, o, id);
      case Signal(_, _) =>
      case CancelWrite(o) => PerformWriteClaimsOnce(max, s, u, o, id);
      case Recheck(_) =>
      case Remove(_) =>
    }
  }

  lemma TakeRowClaimsOnce(s: State, x: nat, id: TaskId)
    requires x in s.execs
    ensures ClaimsOnce(s, TakeRow(s, x), id)
  {}

  lemma WriteClaimsOnce(s: State, o: TaskId, st: Status, id: TaskId)
    requires st != Queued
    ensures ClaimsOnce(s, Write(s, o, st), id)
  {}

  lemma MoveClaimsOnce(s: State, u: State, x: nat, p: Phase, wrote: bool, id: TaskId)
    requires ClaimsOnce(s, u, id) && x in u.execs
    ensures ClaimsOnce(s, Move(u, x, p, wrote), id)
  {}

  lemma HandleClaimsOnce(s: State, x: nat, applied: bool, id: TaskId)
    requires x in s.execs
    ensures ClaimsOnce(s, Deliver(s, x, Handle(applied)), id)
  {
    TakeRowClaimsOnce(s, x, id);
    var u := if s.execs[x].phase == Registered && applied then TakeRow(s, x) else s;
    MoveClaimsOnce(s, u, x, InCancel, s.execs[x].wrote, id);
  }

  lemma AbandonClaimsOnce(s: State, x: nat, applied: bool, id: TaskId)
    requires x in s.execs
    ensures ClaimsOnce(s, Deliver(s, x, Abandon(applied)), id)
  {
    var ex := s.execs[x];
    WriteClaimsOnce(s, ex.task, Failed, id);
    WriteClaimsOnce(s, ex.task, Cancelled, id);
    var u := if !applied then s else if ex.phase == InFailure then Write(s, ex.task, Failed)
             else WriteCancelled(s, ex.task);
    MoveClaimsOnce(s, u, x, Closing, ex.wrote || applied, id);
  }

  lemma ResumeClaimsOnce(s: State, x: nat, e: Effect, id: TaskId)
    requires x in s.execs
    ensures ClaimsOnce(s, Deliver(s.(pending := s.pending - {x}), x, e), id)
  {
    var u := s.(pending := s.pending - {x});
    match e {
      case Absorb =>
      case Handle(applied) => HandleClaimsOnce(u, x, applied, id);
      case Abandon(applied) => AbandonClaimsOnce(u, x, applied, id);
    }
  }

  lemma OwnClaimsOnce(max: nat, s: State, e: Event, id: TaskId)
    requires Enabled(s, e) && (e.Claim? || e.ClaimRaises? || e.FinalWrite? || e.HandlerWrite?)
    ensures ClaimsOnce(s, Step(max, s, e), id)
  {
    var o := s.execs[e.x].task;
    match e {
      case Claim(x) =>
        TakeRowClaimsOnce(s, x, id);
        MoveClaimsOnce(s, TakeRow(s, x), x, Body, false, id);
      case ClaimRaises(x, applied) =>
        TakeRowClaimsOnce(s, x, id);
        MoveClaimsOnce(s, if applied then TakeRow(s, x) else s, x, InFailure, false, id);
      case FinalWrite(x, ok) =>
        var st := if ok then Completed else Failed;
        WriteClaimsOnce(s, o, st, id);
        MoveClaimsOnce(s, Write(s, o, st), x, Body, true, id);
      case HandlerWrite(x) =>
        WriteClaimsOnce(s, o, Failed, id);
        WriteClaimsOnce(s, o, Cancelled, id);
        MoveClaimsOnce(s, if s.execs[x].phase == InFailure then Write(s, o, Failed) else WriteCancelled(s, o),
                       x, Closing, true, id);
    }
  }

  lemma StepClaimsOnce(max: nat, s: State, e: Event, id: TaskId)
    ensures ClaimsOnce(s, Step(max, s, e), id)
  {
    if Enabled(s, e) {
      if e.Claim? || e.ClaimRaises? || e.FinalWrite? || e.HandlerWrite? {
        OwnClaimsOnce(max, s, e, id);
      } else if e.Do? {
        PerformClaimsOnce(max, s, e.t, id);
      } else if e.Resume? {
        ResumeClaimsOnce(s, e.x, e.effect, id);
      }
    }
  }

  /** In every run a row is claimed at most once after each time it became queued, and not yet
      while it is queued. */
  lemma {:induction false} EnqueueClaimedOnce(max: nat, es: seq<Event>, id: TaskId)
    ensures 0 <= Since(max, es, id) <= 1
    ensures Is(Run(max, es), id, Queued) ==> Since(max, es, id) == 0
  {
    if es == [] {
    } else {
      var n := |es| - 1;
      EnqueueClaimedOnce(max, es[..n], id);
      StepClaimsOnce(max, Run(max, es[..n]), es[n], id);
    }
  }

  // ------------------------------------------------------------------------- main results

  /** In every interleaving: the slots held are those of the scheduled or live executions and
      never more than the maximum; a running row has a live claimant yet to write its final
      status, or a cancel request in flight; and a row is claimed at most once after each time
      it became queued. */
  lemma {:induction false} LifecycleSafe(max: nat, es: seq<Event>)
    ensures SlotsMatch(max, Run(max, es)) && Sound(Run(max, es), true) && Signalled(Run(max, es))
    ensures forall id :: 0 <= Since(max, es, id) <= 1 && (Is(Run(max, es), id, Queued) ==> Since(max, es, id) == 0)
  {
    if es == [] {
    } else {
      var n := |es| - 1;
      var s := Run(max, es[..n]);
      LifecycleSafe(max, es[..n]);
      if Enabled(s, es[n]) {
        StepKeepsSound(max, s, es[n], true);
        StepKeepsSlots(max, s, es[n]);
        StepKeepsSignalled(max, s, es[n]);
      }
    }
    forall id ensures 0 <= Since(max, es, id) <= 1 && (Is(Run(max, es), id, Queued) ==> Since(max, es, id) == 0) {
      EnqueueClaimedOnce(max, es, id);
    }
  }

  /** No task stays running once no execution is live and no cancel request is in flight. */
  lemma NothingStaysRunning(max: nat, es: seq<Event>, id: TaskId)
    requires Run(max, es).execs == map[] && CancelWrite(id) !in Run(max, es).todo
    ensures !Is(Run(max, es), id, Running)
    ensures Run(max, es).slots == []
  {
    LifecycleSafe(max, es);
    var s := Run(max, es);
    assert Tracked(s, id, true);
    forall o ensures o !in s.slots {
      assert ExecsOf(s.execs, o) == {};
      assert multiset(s.slots)[o] == 0;
    }
    assert multiset(s.slots) == multiset{};
  }

  /** The one step after which a running row has lost its claimant: the claimant, in an exception
      handler, resumes with a cancellation before its write is applied. */
  predicate Breaks(s: State, e: Event, id: TaskId) {
    && e.Resume? && e.effect == Abandon(false) && e.x in s.execs && s.execs[e.x].task == id
    && Claims(s, e.x) && s.execs[e.x].phase in {InFailure, InCancel}
  }

  ghost predicate Harmless(s: State, e: Event) { Enabled(s, e) ==> forall id :: !Breaks(s, e, id) }

  ghost predicate AllClaimed(s: State) { forall id :: Is(s, id, Running) ==> LiveClaimant(s, id) }

  /** An execution that leaves its handler stops being a live claimant, and no other does. */
  lemma LeavingExact(s: State, u: State, x: nat, wrote: bool, id: TaskId)
    requires x in s.execs && u.execs == s.execs && u.claimant == s.claimant && s.execs[x].phase in {InFailure, InCancel}
    ensures LiveClaimant(Move(u, x, Closing, wrote), id)
            <==> LiveClaimant(s, id) && !(id in s.claimant && s.claimant[id] == x)
  {}

  lemma AbandonExact(s: State, x: nat, applied: bool, id: TaskId)
    requires Sound(s, false) && x in s.execs
    ensures var s' := Deliver(s.(pending := s.pending - {x}), x, Abandon(applied));
            (Is(s', id, Running) ==> LiveClaimant(s', id)) <==> !Breaks(s, Resume(x, Abandon(applied)), id)
  {
    assert Tracked(s, id, false);
    var u, ex := s.(pending := s.pending - {x}), s.execs[x];
    if ex.phase in {InFailure, InCancel} {
      var v := if !applied then u else if ex.phase == InFailure then Write(u, ex.task, Failed)
               else WriteCancelled(u, ex.task);
      LeavingExact(s, v, x, ex.wrote || applied, id);
      assert Is(v, id, Running) <==> Is(s, id, Running) && !(applied && id == ex.task);
    }
  }

  /** From a state in which every running row has its claimant, a step takes it away from a row
      exactly if it is that one. */
  lemma StepKeepsClaimUnless(max: nat, s: State, e: Event, id: TaskId)
    requires Sound(s, false) && Enabled(s, e)
    ensures var s' := Step(max, s, e);
            (Is(s', id, Running) ==> LiveClaimant(s', id)) <==> !Breaks(s, e, id)
  {
    if e.Resume? && e.effect.Abandon? {
      AbandonExact(s, e.x, e.effect.applied, id);
    } else {
      StepKeepsSound(max, s, e, false);
      assert Tracked(Step(max, s, e), id, false);
    }
  }

  /** Every moment of a run. */
  ghost predicate AlwaysClaimed(max: nat, es: seq<Event>) {
    AllClaimed(Run(max, es)) && (es != [] ==> AlwaysClaimed(max, es[..|es| - 1]))
  }

  ghost predicate NeverBroken(max: nat, es: seq<Event>) {
    es != [] ==>
      NeverBroken(max, es[..|es| - 1]) && Harmless(Run(max, es[..|es| - 1]), es[|es| - 1])
  }

  lemma LastStepExact(max: nat, s: State, e: Event)
    requires Sound(s, true) && AllClaimed(s)
    ensures AllClaimed(Step(max, s, e)) <==> Harmless(s, e)
  {
    assert Sound(s, false) by {
      forall o ensures Tracked(s, o, false) && Covered(s, o) {
        assert Tracked(s, o, true) && Covered(s, o);
      }
    }
    if Enabled(s, e) {
      var s' := Step(max, s, e);
      forall id ensures (Is(s', id, Running) ==> LiveClaimant(s', id)) <==> !Breaks(s, e, id) {
        StepKeepsClaimUnless(max, s, e, id);
      }
    }
  }

  /** A running row has its live claimant at every moment of a run exactly if no claimant is
      interrupted in its exception handler before its write. */
  lemma {:induction false} RunningHasClaimant(max: nat, es: seq<Event>)
    ensures AlwaysClaimed(max, es) <==> NeverBroken(max, es)
  {
    if es == [] {
    } else {
      var n := |es| - 1;
      RunningHasClaimant(max, es[..n]);
      LifecycleSafe(max, es[..n]);
      if AlwaysClaimed(max, es[..n]) {
        LastStepExact(max, Run(max, es[..n]), es[n]);
      }
    }
  }

  /** A run in which a cancellation reaches an exception handler before its write. */
  function Interrupted(id: TaskId): seq<Event> {
    [Create(id), Do(Acquire(id)), Begin(0), Claim(0), Raise(0), Cancel(id), Do(Signal(id, 0)),
     Resume(0, Abandon(false))]
  }

  /** Its states. */
  function Moment(id: TaskId, n: nat): State {
    if n == 0 then EMPTY
    else if n == 1 then EMPTY.(rows := map[id := Queued], todo := multiset{Acquire(id)}, enqueued := map[id := 1])
    else
      State(map[id := if n < 4 then Queued else Running], [id],
            map[0 := Exec(id, if n == 2 then Scheduled else if n == 3 then Registered else if n == 4 then Body
                              else if n < 8 then InFailure else Closing, false)],
            if n == 2 then map[] else map[id := 0],
            if n == 7 then {0} else {},
            if n == 6 then multiset{Signal(id, 0)} else if n >= 7 then multiset{CancelWrite(id)} else multiset{},
            1, if n < 4 then map[] else map[id := 0], map[id := 1], if n < 4 then map[] else map[id := 1])
  }

  lemma CreateMoment(id: TaskId)
    ensures Step(1, Moment(id, 0), Interrupted(id)[0]) == Moment(id, 1)
  {}

  lemma AcquireMoment(id: TaskId)
    ensures Step(1, Moment(id, 1), Interrupted(id)[1]) == Moment(id, 2)
  {}

  lemma BeginMoment(id: TaskId)
    ensures Step(1, Moment(id, 2), Interrupted(id)[2]) == Moment(id, 3)
  {}

  lemma ClaimMoment(id: TaskId)
    ensures Step(1, Moment(id, 3), Interrupted(id)[3]) == Moment(id, 4)
  {}

  lemma RaiseMoment(id: TaskId)
    ensures Step(1, Moment(id, 4), Interrupted(id)[4]) == Moment(id, 5)
  {}

  lemma CancelMoment(id: TaskId)
    ensures Step(1, Moment(id, 5), Interrupted(id)[5]) == Moment(id, 6)
  {}

  lemma SignalMoment(id: TaskId)
    ensures Step(1, Moment(id, 6), Interrupted(id)[6]) == Moment(id, 7)
  {}

  lemma ResumeMoment(id: TaskId)
    ensures Step(1, Moment(id, 7), Interrupted(id)[7]) == Moment(id, 8)
  {}

  lemma {:induction false} MomentsOfRun(id: TaskId, n: nat)
    requires n <= 8
    ensures Run(1, Interrupted(id)[..n]) == Moment(id, n)
  {
    if n == 0 {
    } else {
      var es := Interrupted(id);
      MomentsOfRun(id, n - 1);
      assert es[..n][..n - 1] == es[..n - 1] && es[..n][n - 1] == es[n - 1];
      match n - 1 {
        case 0 => CreateMoment(id);
        case 1 => AcquireMoment(id);
        case 2 => BeginMoment(id);
        case 3 => ClaimMoment(id);
        case 4 => RaiseMoment(id);
        case 5 => CancelMoment(id);
        case 6 => SignalMoment(id);
        case _ => ResumeMoment(id);
      }
    }
  }

  /** The exception is real: a failing execution that is cancelled in its handler leaves the
      row running with no claimant left to write it, until the cancel request does. */
  lemma InterruptedHandlerLeavesRowRunning(id: TaskId)
    ensures Is(Run(1, Interrupted(id)), id, Running) && !LiveClaimant(Run(1, Interrupted(id)), id)
  {
    MomentsOfRun(id, 8);
    assert Interrupted(id)[..8] == Interrupted(id);
  }
}
