/** What the events of a run say about the status of a task and about where an execution is
    (`executor.py`, `routes.py`). */
module TaskHistories {
  import opened TaskLifecycle

  // ------------------------------------------------------------- the last event of a kind

  ghost predicate HoldsAt(max: nat, es: seq<Event>, i: nat, p: (State, Event) -> bool)
    requires i < |es|
  {
    p(Run(max, es[..i]), es[i])
  }

  ghost predicate NoneAfter(max: nat, es: seq<Event>, i: nat, p: (State, Event) -> bool) {
    forall j | i < j < |es| :: !HoldsAt(max, es, j, p)
  }

  /** Some event is of the first kind, and none after it is of the second. */
  ghost predicate LastOf(max: nat, es: seq<Event>, sets: (State, Event) -> bool, touches: (State, Event) -> bool) {
    exists i :: 0 <= i < |es| && HoldsAt(max, es, i, sets) && NoneAfter(max, es, i, touches)
  }

  lemma SamePast(max: nat, es: seq<Event>, e: Event, i: nat, p: (State, Event) -> bool)
    requires i < |es|
    ensures HoldsAt(max, es + [e], i, p) == HoldsAt(max, es, i, p)
    ensures NoneAfter(max, es + [e], i, p) <==> NoneAfter(max, es, i, p) && !p(Run(max, es), e)
  {
    var all := es + [e];
    forall j: nat | j < |es| ensures all[..j] == es[..j] && all[j] == es[j] {
    }
    assert all[..|es|] == es && all[|es|] == e;
    assert HoldsAt(max, all, |es|, p) == p(Run(max, es), e);
    forall j: nat | j < |es| ensures HoldsAt(max, all, j, p) == HoldsAt(max, es, j, p) {
    }
  }

  lemma LastOfSnoc(max: nat, es: seq<Event>, e: Event, sets: (State, Event) -> bool,
                   touches: (State, Event) -> bool)
    ensures LastOf(max, es + [e], sets, touches)
            <==> sets(Run(max, es), e) || (!touches(Run(max, es), e) && LastOf(max, es, sets, touches))
  {
    var all := es + [e];
    assert all[..|es|] == es && all[|es|] == e;
    assert HoldsAt(max, all, |es|, sets) == sets(Run(max, es), e) && NoneAfter(max, all, |es|, touches);
    forall i: nat | i < |es|
      ensures HoldsAt(max, all, i, sets) == HoldsAt(max, es, i, sets)
      ensures NoneAfter(max, all, i, touches) <==> NoneAfter(max, es, i, touches) && !touches(Run(max, es), e)
    {
      SamePast(max, es, e, i, sets);
      SamePast(max, es, e, i, touches);
    }
  }

  /** What an event does to a row or to an execution. */
  datatype Change<C> = Keep | To(value: C) | Gone

  // ------------------------------------------------------------------ where an execution is

  datatype Place = Waiting | Ready | Working | Written | Failing | Cancelling | Leaving

  /** A body that has written the final status is a place of its own. */
  function PlaceOf(ex: Exec): Place {
    match ex.phase
    case Scheduled => Waiting
    case Registered => Ready
    case Body => if ex.wrote then Written else Working
    case InFailure => Failing
    case InCancel => Cancelling
    case Closing => Leaving
  }

  predicate In(s: State, x: nat, p: Place) { x in s.execs && PlaceOf(s.execs[x]) == p }

  /** It is there and may go on by itself: no cancellation is waiting for it. */
  predicate Free(s: State, x: nat, p: Place) { In(s, x, p) && x !in s.pending }

  /** It is there and a cancellation is waiting for it. */
  predicate Caught(s: State, x: nat, p: Place) { In(s, x, p) && x in s.pending }

  // ------------------------------------------------------------------ the status of a row

  /** The event is a step of an execution of that id. */
  predicate By(s: State, x: nat, id: TaskId) { x in s.execs && s.execs[x].task == id }

  /** The event applies that status to the row. */
  predicate Sets(s: State, e: Event, id: TaskId, st: Status) {
    match st
    case Queued =>
      || (e == Create(id) && id !in s.rows && id !in s.enqueued)
      || (e == Retry(id) && (Is(s, id, Failed) || Is(s, id, Cancelled)))
    case Running =>
      && Is(s, id, Queued)
      && match e {
           case Claim(x) => By(s, x, id) && Free(s, x, Ready)
           case ClaimRaises(x, applied) => By(s, x, id) && Free(s, x, Ready) && applied
           case Resume(x, effect) => By(s, x, id) && Caught(s, x, Ready) && effect == Handle(true)
           case _ => false
         }
    case Completed =>
      id in s.rows && e.FinalWrite? && e.ok && By(s, e.x, id) && (Free(s, e.x, Working) || Free(s, e.x, Written))
    case Failed =>
      && id in s.rows
      && match e {
           case Do(t) => t == MarkFailed(id) && t in s.todo
           case FinalWrite(x, ok) => By(s, x, id) && (Free(s, x, Working) || Free(s, x, Written)) && !ok
           case HandlerWrite(x) => By(s, x, id) && Free(s, x, Failing)
           case Resume(x, effect) => By(s, x, id) && Caught(s, x, Failing) && effect == Abandon(true)
           case _ => false
         }
    case Cancelled =>
      && Is(s, id, Running)
      && match e {
           case Do(t) => t == CancelWrite(id) && t in s.todo
           case HandlerWrite(x) => By(s, x, id) && Free(s, x, Cancelling)
           case Resume(x, effect) => By(s, x, id) && Caught(s, x, Cancelling) && effect == Abandon(true)
           case _ => false
         }
  }

  predicate Removes(s: State, e: Event, id: TaskId) { e == Do(Remove(id)) && Remove(id) in s.todo }

  /** The same, event by event. */
  function Changes(s: State, e: Event, id: TaskId): Change<Status> {
    if !Enabled(s, e) then Keep
    else
      match e
      case Create(o) => if o == id then To(Queued) else Keep
      case Retry(o) => if o == id then To(Queued) else Keep
      case Do(t) =>
        if t == Remove(id) then Gone
        else if t == MarkFailed(id) && id in s.rows then To(Failed)
        else if t == CancelWrite(id) && Is(s, id, Running) then To(Cancelled)
        else Keep
      case Claim(x) => Starting(s, x, id)
      case ClaimRaises(x, applied) => if applied then Starting(s, x, id) else Keep
      case FinalWrite(x, ok) =>
        if By(s, x, id) && id in s.rows then To(if ok then Completed else Failed) else Keep
      case HandlerWrite(x) => Handling(s, x, id)
      case Resume(x, effect) => Delivered(s, x, effect, id)
      case _ => Keep
  }

  function Starting(s: State, x: nat, id: TaskId): Change<Status> {
    if By(s, x, id) && Is(s, id, Queued) then To(Running) else Keep
  }

  function Handling(s: State, x: nat, id: TaskId): Change<Status> {
    if By(s, x, id) && Has(s, x, InFailure) && id in s.rows then To(Failed)
    else if By(s, x, id) && Has(s, x, InCancel) && Is(s, id, Running) then To(Cancelled)
    else Keep
  }

  /** What the delivery of a cancellation applies. */
  function Delivered(s: State, x: nat, effect: Effect, id: TaskId): Change<Status> {
    if effect == Handle(true) && Has(s, x, Registered) then Starting(s, x, id)
    else if effect == Abandon(true) then Handling(s, x, id)
    else Keep
  }

  lemma ChangesAreSets(s: State, e: Event, id: TaskId, st: Status)
    ensures Sets(s, e, id, st) <==> Changes(s, e, id) == To(st)
    ensures Removes(s, e, id) <==> Changes(s, e, id) == Gone
  {}

  /** The event applies a status to the row or removes it. */
  predicate Touches(s: State, e: Event, id: TaskId) { Changes(s, e, id) != Keep }

  predicate Follows(rows: map<TaskId, Status>, c: Change<Status>, rows': map<TaskId, Status>, id: TaskId) {
    match c
    case Keep => (id in rows' <==> id in rows) && (id in rows ==> rows'[id] == rows[id])
    case To(st) => id in rows' && rows'[id] == st
    case Gone => id !in rows'
  }

  lemma WriteFollows(s: State, u: State, o: TaskId, st: Status, id: TaskId)
    requires u.rows == s.rows
    ensures Follows(s.rows, if o == id && id in s.rows then To(st) else Keep, Write(u, o, st).rows, id)
  {}

  lemma CancelFollows(s: State, u: State, o: TaskId, id: TaskId)
    requires u.rows == s.rows
    ensures Follows(s.rows, if o == id && Is(s, id, Running) then To(Cancelled) else Keep,
                    WriteCancelled(u, o).rows, id)
  {}

  lemma TakeFollows(s: State, u: State, x: nat, id: TaskId)
    requires u.rows == s.rows && u.execs == s.execs && x in s.execs
    ensures Follows(s.rows, Starting(s, x, id), TakeRow(u, x).rows, id)
  {}

  lemma OtherRows(max: nat, u: State, t: Todo)
    requires !t.MarkFailed? && !t.CancelWrite? && !t.Remove?
    ensures Perform(max, u, t).rows == u.rows
  {}

  lemma PerformFollows(max: nat, s: State, t: Todo, id: TaskId)
    requires t in s.todo
    ensures Follows(s.rows, Changes(s, Do(t), id), Step(max, s, Do(t)).rows, id)
  {
    var u := s.(todo := s.todo - multiset{t});
    assert Step(max, s, Do(t)) == Perform(max, u, t);
    match t {
      case MarkFailed(o) => WriteFollows(s, u, o, Failed, id);
      case CancelWrite(o) => CancelFollows(s, u, o, id);
      case Remove(_) =>
      case _ => OtherRows(max, u, t);
    }
  }

  lemma HandleFollows(s: State, u: State, x: nat, applied: bool, id: TaskId)
    requires u.rows == s.rows && u.execs == s.execs && x in s.execs
    ensures Follows(s.rows, Delivered(s, x, Handle(applied), id), Deliver(u, x, Handle(applied)).rows, id)
  {
    TakeFollows(s, u, x, id);
  }

  lemma FailureFollows(s: State, u: State, x: nat, id: TaskId)
    requires u.rows == s.rows && Has(s, x, InFailure)
    ensures Follows(s.rows, Handling(s, x, id), Write(u, s.execs[x].task, Failed).rows, id)
  {
    WriteFollows(s, u, s.execs[x].task, Failed, id);
  }

  lemma CancelledFollows(s: State, u: State, x: nat, id: TaskId)
    requires u.rows == s.rows && Has(s, x, InCancel)
    ensures Follows(s.rows, Handling(s, x, id), WriteCancelled(u, s.execs[x].task).rows, id)
  {
    CancelFollows(s, u, s.execs[x].task, id);
  }

  lemma AbandonFollows(s: State, u: State, x: nat, applied: bool, id: TaskId)
    requires u.rows == s.rows && u.execs == s.execs && x in s.execs
    ensures Follows(s.rows, Delivered(s, x, Abandon(applied), id), Deliver(u, x, Abandon(applied)).rows, id)
  {
    if applied && Has(s, x, InFailure) {
      FailureFollows(s, u, x, id);
      assert Deliver(u, x, Abandon(applied)).rows == Write(u, s.execs[x].task, Failed).rows;
    } else if applied && Has(s, x, InCancel) {
      CancelledFollows(s, u, x, id);
      assert Deliver(u, x, Abandon(applied)).rows == WriteCancelled(u, s.execs[x].task).rows;
    } else {
      assert Deliver(u, x, Abandon(applied)).rows == s.rows;
    }
  }

  lemma ResumeFollows(max: nat, s: State, x: nat, effect: Effect, id: TaskId)
    requires Enabled(s, Resume(x, effect))
    ensures Follows(s.rows, Delivered(s, x, effect, id), Step(max, s, Resume(x, effect)).rows, id)
  {
    var u := s.(pending := s.pending - {x});
    match effect {
      case Absorb =>
      case Handle(applied) => HandleFollows(s, u, x, applied, id);
      case Abandon(applied) => AbandonFollows(s, u, x, applied, id);
    }
  }

  lemma OwnFollows(max: nat, s: State, e: Event, id: TaskId)
    requires Enabled(s, e) && (e.Claim? || e.ClaimRaises? || e.FinalWrite? || e.HandlerWrite?)
    ensures Follows(s.rows, Changes(s, e, id), Step(max, s, e).rows, id)
  {
    var o := s.execs[e.x].task;
    match e {
      case Claim(x) => TakeFollows(s, s, x, id);
      case ClaimRaises(x, _) => TakeFollows(s, s, x, id);
      case FinalWrite(_, ok) => WriteFollows(s, s, o, if ok then Completed else Failed, id);
      case HandlerWrite(x) =>
        if Has(s, x, InFailure) {
          FailureFollows(s, s, x, id);
        } else {
          CancelledFollows(s, s, x, id);
        }
    }
  }

  lemma StepFollows(max: nat, s: State, e: Event, id: TaskId)
    ensures Follows(s.rows, Changes(s, e, id), Step(max, s, e).rows, id)
  {
    if Enabled(s, e) {
      match e {
        case Do(t) => PerformFollows(max, s, t, id);
        case Resume(x, effect) => ResumeFollows(max, s, x, effect, id);
        case Create(_) =>
        case Retry(_) =>
        case Begin(_) =>
        case Return(_) =>
        case Raise(_) =>
        case Cancel(_) =>
        case Delete(_) =>
        case Finally(_) =>
        case _ => OwnFollows(max, s, e, id);
      }
    }
  }

  /** In every run a row has a status exactly if the last event that touched the row applied it: completed by
      a successful final write, failed by an unsuccessful one, a failure handler or a refused start, and
      cancelled by a cancel write that found the row running. */
  lemma {:induction false} StatusIsLastWrite(max: nat, es: seq<Event>, id: TaskId, st: Status)
    ensures Is(Run(max, es), id, st)
            <==> LastOf(max, es, (s, e) => Sets(s, e, id, st), (s, e) => Touches(s, e, id))
  {
    if es == [] {
    } else {
      var before, e := es[..|es| - 1], es[|es| - 1];
      assert es == before + [e];
      StatusIsLastWrite(max, before, id, st);
      LastOfSnoc(max, before, e, (s, e) => Sets(s, e, id, st), (s, e) => Touches(s, e, id));
      StepFollows(max, Run(max, before), e, id);
      ChangesAreSets(Run(max, before), e, id, st);
    }
  }

  // -------------------------------------------------------------- the place of an execution

  predicate Starts(max: nat, s: State, e: Event, x: nat) {
    e.Do? && e.t.Acquire? && e.t in s.todo && |s.slots| < max && x == s.next
  }

  predicate Ends(s: State, e: Event, x: nat) { e == Finally(x) && Free(s, x, Leaving) }

  /** The event takes the execution to that place. */
  predicate Enters(max: nat, s: State, e: Event, x: nat, p: Place) {
    match p
    case Waiting => Starts(max, s, e, x)
    case Ready => e == Begin(x) && Free(s, x, Waiting)
    case Working => e == Claim(x) && Free(s, x, Ready) && Is(s, s.execs[x].task, Queued)
    case Written => e.FinalWrite? && e.x == x && (Free(s, x, Working) || Free(s, x, Written))
    case Failing =>
      || (e == Raise(x) && (Free(s, x, Working) || Free(s, x, Written)))
      || (e.ClaimRaises? && e.x == x && Free(s, x, Ready))
    case Cancelling =>
      && e.Resume? && e.x == x && e.effect.Handle?
      && (Caught(s, x, Ready) || Caught(s, x, Working) || Caught(s, x, Written))
    case Leaving =>
      || (e == Claim(x) && Free(s, x, Ready) && !Is(s, s.execs[x].task, Queued))
      || (e == Return(x) && Free(s, x, Written))
      || (e == HandlerWrite(x) && (Free(s, x, Failing) || Free(s, x, Cancelling)))
      || (e.Resume? && e.x == x && e.effect.Abandon? && (Caught(s, x, Failing) || Caught(s, x, Cancelling)))
  }

  /** The same, event by event. */
  function Moves(max: nat, s: State, e: Event, x: nat): Change<Place> {
    if !Enabled(s, e) then Keep
    else
      match e
      case Do(t) => if t.Acquire? && |s.slots| < max && x == s.next then To(Waiting) else Keep
      case Begin(y) => if y == x then To(Ready) else Keep
      case Claim(y) =>
        if y != x then Keep else if Is(s, s.execs[x].task, Queued) then To(Working) else To(Leaving)
      case ClaimRaises(y, _) => if y == x then To(Failing) else Keep
      case FinalWrite(y, _) => if y == x then To(Written) else Keep
      case Return(y) => if y == x then To(Leaving) else Keep
      case Raise(y) => if y == x then To(Failing) else Keep
      case HandlerWrite(y) => if y == x then To(Leaving) else Keep
      case Resume(y, effect) =>
        if y == x && effect.Handle? && (Has(s, x, Registered) || Has(s, x, Body)) then To(Cancelling)
        else if y == x && effect.Abandon? && (Has(s, x, InFailure) || Has(s, x, InCancel)) then To(Leaving)
        else Keep
      case Finally(y) => if y == x then Gone else Keep
      case _ => Keep
  }

  predicate Shifts(max: nat, s: State, e: Event, x: nat) { Moves(max, s, e, x) != Keep }

  lemma MovesAreEnters(max: nat, s: State, e: Event, x: nat, p: Place)
    ensures Enters(max, s, e, x, p) <==> Moves(max, s, e, x) == To(p)
    ensures Ends(s, e, x) <==> Moves(max, s, e, x) == Gone
  {
    match p {
      case Waiting =>
      case Ready =>
      case Working =>
      case Written =>
      case Failing =>
      case Cancelling =>
      case Leaving =>
    }
  }

  predicate Lands(execs: map<nat, Exec>, c: Change<Place>, execs': map<nat, Exec>, x: nat) {
    match c
    case Keep => (x in execs' <==> x in execs) && (x in execs ==> PlaceOf(execs'[x]) == PlaceOf(execs[x]))
    case To(p) => x in execs' && PlaceOf(execs'[x]) == p
    case Gone => x !in execs'
  }

  /** A step that moves one execution. */
  lemma MoveLands(s: State, u: State, y: nat, p: Phase, wrote: bool, c: Change<Place>, x: nat)
    requires u.execs == s.execs && y in s.execs
    requires c == if x == y then To(PlaceOf(Exec("", p, wrote))) else Keep
    ensures Lands(s.execs, c, Move(u, y, p, wrote).execs, x)
  {}

  lemma PerformExecs(max: nat, u: State, t: Todo)
    ensures Perform(max, u, t).execs
         == if t.Acquire? && |u.slots| < max then u.execs[u.next := Exec(t.id, Scheduled, false)] else u.execs
  {
    match t {
      case Acquire(_) =>
      case MarkFailed(o) => assert Write(u, o, Failed).execs == u.execs;
      case CancelWrite(o) => assert WriteCancelled(u, o).execs == u.execs;
      case Signal(_, _) =>
      case Recheck(_) =>
      case Remove(_) =>
    }
  }

  lemma DoLands(max: nat, s: State, t: Todo, x: nat)
    requires t in s.todo
    ensures Lands(s.execs, Moves(max, s, Do(t), x), Step(max, s, Do(t)).execs, x)
  {
    var u := s.(todo := s.todo - multiset{t});
    PerformExecs(max, u, t);
    assert Step(max, s, Do(t)) == Perform(max, u, t);
  }

  lemma ClaimLands(max: nat, s: State, y: nat, x: nat)
    requires Enabled(s, Claim(y))
    ensures Lands(s.execs, Moves(max, s, Claim(y), x), Step(max, s, Claim(y)).execs, x)
  {
    var id, c := s.execs[y].task, Moves(max, s, Claim(y), x);
    if Is(s, id, Queued) {
      MoveLands(s, TakeRow(s, y), y, Body, false, c, x);
    } else {
      MoveLands(s, s.(running := s.running - {id}), y, Closing, false, c, x);
    }
  }

  lemma HandlerLands(max: nat, s: State, y: nat, x: nat)
    requires Enabled(s, HandlerWrite(y))
    ensures Lands(s.execs, Moves(max, s, HandlerWrite(y), x), Step(max, s, HandlerWrite(y)).execs, x)
  {
    var id := s.execs[y].task;
    MoveLands(s, if s.execs[y].phase == InFailure then Write(s, id, Failed) else WriteCancelled(s, id),
              y, Closing, true, Moves(max, s, HandlerWrite(y), x), x);
  }

  lemma HandleLands(max: nat, s: State, y: nat, applied: bool, x: nat)
    requires Enabled(s, Resume(y, Handle(applied)))
    ensures Lands(s.execs, Moves(max, s, Resume(y, Handle(applied)), x),
                  Step(max, s, Resume(y, Handle(applied))).execs, x)
  {
    var u, ex := s.(pending := s.pending - {y}), s.execs[y];
    if ex.phase == Registered || ex.phase == Body {
      MoveLands(s, if ex.phase == Registered && applied then TakeRow(u, y) else u, y, InCancel, ex.wrote,
                Moves(max, s, Resume(y, Handle(applied)), x), x);
    }
  }

  lemma AbandonLands(max: nat, s: State, y: nat, applied: bool, x: nat)
    requires Enabled(s, Resume(y, Abandon(applied)))
    ensures Lands(s.execs, Moves(max, s, Resume(y, Abandon(applied)), x),
                  Step(max, s, Resume(y, Abandon(applied))).execs, x)
  {
    var u, ex := s.(pending := s.pending - {y}), s.execs[y];
    if ex.phase == InFailure || ex.phase == InCancel {
      var v := if !applied then u else if ex.phase == InFailure then Write(u, ex.task, Failed)
               else WriteCancelled(u, ex.task);
      MoveLands(s, v, y, Closing, ex.wrote || applied, Moves(max, s, Resume(y, Abandon(applied)), x), x);
    }
  }

  lemma PlainLands(max: nat, s: State, e: Event, x: nat)
    requires Enabled(s, e) && (e.Begin? || e.ClaimRaises? || e.FinalWrite? || e.Return? || e.Raise?)
    ensures Lands(s.execs, Moves(max, s, e, x), Step(max, s, e).execs, x)
  {
    var c := Moves(max, s, e, x);
    match e {
      case Begin(y) => MoveLands(s, s.(running := s.running[s.execs[y].task := y]), y, Registered, false, c, x);
      case ClaimRaises(y, applied) => MoveLands(s, if applied then TakeRow(s, y) else s, y, InFailure, false, c, x);
      case FinalWrite(y, ok) =>
        MoveLands(s, Write(s, s.execs[y].task, if ok then Completed else Failed), y, Body, true, c, x);
      case Return(y) => MoveLands(s, s, y, Closing, true, c, x);
      case Raise(y) => MoveLands(s, s, y, InFailure, s.execs[y].wrote, c, x);
    }
  }

  lemma StepLands(max: nat, s: State, e: Event, x: nat)
    ensures Lands(s.execs, Moves(max, s, e, x), Step(max, s, e).execs, x)
  {
    if Enabled(s, e) {
      match e {
        case Do(t) => DoLands(max, s, t, x);
        case Claim(y) => ClaimLands(max, s, y, x);
        case HandlerWrite(y) => HandlerLands(max, s, y, x);
        case Resume(y, effect) =>
          match effect {
            case Absorb =>
            case Handle(applied) => HandleLands(max, s, y, applied, x);
            case Abandon(applied) => AbandonLands(max, s, y, applied, x);
          }
        case Create(_) =>
        case Retry(_) =>
        case Cancel(_) =>
        case Delete(_) =>
        case Finally(_) =>
        case _ => PlainLands(max, s, e, x);
      }
    }
  }

  /** In every run an execution is where the last event that moved it took it. */
  lemma {:induction false} PlaceIsLastMove(max: nat, es: seq<Event>, x: nat, p: Place)
    ensures In(Run(max, es), x, p)
            <==> LastOf(max, es, (s, e) => Enters(max, s, e, x, p), (s, e) => Shifts(max, s, e, x))
  {
    if es == [] {
    } else {
      var before, e := es[..|es| - 1], es[|es| - 1];
      assert es == before + [e];
      PlaceIsLastMove(max, before, x, p);
      LastOfSnoc(max, before, e, (s, e) => Enters(max, s, e, x, p), (s, e) => Shifts(max, s, e, x));
      StepLands(max, Run(max, before), e, x);
      MovesAreEnters(max, Run(max, before), e, x, p);
    }
  }

  lemma StartedTask(max: nat, s: State, t: Todo, x: nat, id: TaskId)
    requires t in s.todo
    ensures By(Step(max, s, Do(t)), x, id)
            <==> if Starts(max, s, Do(t), x) then t == Acquire(id) else By(s, x, id)
  {
    if t.Acquire? && |s.slots| < max {
    } else {
      PerformSameExecs(max, s.(todo := s.todo - multiset{t}), t);
    }
  }

  lemma StepKeepsTask(max: nat, s: State, e: Event, x: nat, id: TaskId)
    ensures By(Step(max, s, e), x, id)
            <==> if Starts(max, s, e, x) then e == Do(Acquire(id)) else By(s, x, id) && !Ends(s, e, x)
  {
    if Enabled(s, e) {
      match e {
        case Do(t) => StartedTask(max, s, t, x, id);
        case Resume(y, effect) => DeliverSameExecs(s.(pending := s.pending - {y}), y, effect);
        case Finally(y) =>
        case _ => OtherStepSameExecs(max, s, e);
      }
    }
  }

  /** An execution that is alive runs for the id with which it was started. */
  lemma {:induction false} RunsForItsStart(max: nat, es: seq<Event>, x: nat, id: TaskId)
    ensures By(Run(max, es), x, id)
            <==> LastOf(max, es, (s, e) => Starts(max, s, e, x) && e == Do(Acquire(id)),
                        (s, e) => Starts(max, s, e, x) || Ends(s, e, x))
  {
    if es == [] {
    } else {
      var before, e := es[..|es| - 1], es[|es| - 1];
      assert es == before + [e];
      RunsForItsStart(max, before, x, id);
      LastOfSnoc(max, before, e, (s, e) => Starts(max, s, e, x) && e == Do(Acquire(id)),
                 (s, e) => Starts(max, s, e, x) || Ends(s, e, x));
      StepKeepsTask(max, Run(max, before), e, x, id);
    }
  }

  // ------------------------------------------------------ the steps requests are bound to

  /** The event binds a request to that step. */
  predicate Binds(max: nat, s: State, e: Event, t: Todo) {
    match t
    case Acquire(id) => Sets(s, e, id, Queued)
    case MarkFailed(id) => e == Do(Acquire(id)) && e.t in s.todo && |s.slots| >= max
    case Signal(id, x) => e == Cancel(id) && Listed(s, id, x) && x in s.execs
    case CancelWrite(id) => e.Do? && e.t.Signal? && e.t.id == id && e.t in s.todo
    case Recheck(id) => e == Delete(id) && !Is(s, id, Running)
    case Remove(id) => e == Do(Recheck(id)) && e.t in s.todo && !Is(s, id, Running)
  }

  function Bound(max: nat, es: seq<Event>, t: Todo): nat {
    if es == [] then 0
    else
      var n := |es| - 1;
      Bound(max, es[..n], t) + if Binds(max, Run(max, es[..n]), es[n], t) then 1 else 0
  }

  function Taken(max: nat, es: seq<Event>, t: Todo): nat {
    if es == [] then 0
    else
      var n := |es| - 1;
      Taken(max, es[..n], t) + if es[n] == Do(t) && t in Run(max, es[..n]).todo then 1 else 0
  }

  /** The steps owed, the signalled executions and the running table stay. */
  predicate KeepsOwed(s: State, s': State) {
    s'.todo == s.todo && s'.pending == s.pending && s'.running == s.running
  }

  lemma WriteKeepsOwed(s: State, id: TaskId, st: Status)
    ensures KeepsOwed(s, Write(s, id, st)) && KeepsOwed(s, WriteCancelled(s, id))
  {}

  lemma TakeKeepsOwed(s: State, x: nat)
    requires x in s.execs
    ensures KeepsOwed(s, TakeRow(s, x))
  {}

  lemma MoveKeepsOwed(s: State, u: State, x: nat, p: Phase, wrote: bool)
    requires KeepsOwed(s, u) && x in u.execs
    ensures KeepsOwed(s, Move(u, x, p, wrote))
  {}

  lemma HandleKeepsOwed(s: State, x: nat, applied: bool)
    requires x in s.execs
    ensures KeepsOwed(s, Deliver(s, x, Handle(applied)))
  {
    var ex := s.execs[x];
    TakeKeepsOwed(s, x);
    MoveKeepsOwed(s, if ex.phase == Registered && applied then TakeRow(s, x) else s, x, InCancel, ex.wrote);
  }

  lemma AbandonKeepsOwed(s: State, x: nat, applied: bool)
    requires x in s.execs
    ensures KeepsOwed(s, Deliver(s, x, Abandon(applied)))
  {
    var ex := s.execs[x];
    WriteKeepsOwed(s, ex.task, Failed);
    var u := if !applied then s else if ex.phase == InFailure then Write(s, ex.task, Failed)
             else WriteCancelled(s, ex.task);
    MoveKeepsOwed(s, u, x, Closing, ex.wrote || applied);
  }

  lemma DeliverKeepsOwed(s: State, x: nat, effect: Effect)
    requires x in s.execs
    ensures KeepsOwed(s, Deliver(s, x, effect))
  {
    match effect {
      case Absorb =>
      case Handle(applied) => HandleKeepsOwed(s, x, applied);
      case Abandon(applied) => AbandonKeepsOwed(s, x, applied);
    }
  }

  predicate Writing(e: Event) { e.ClaimRaises? || e.FinalWrite? || e.HandlerWrite? || e.Return? || e.Raise? }

  lemma OwnKeepsOwed(max: nat, s: State, e: Event)
    requires Enabled(s, e) && Writing(e)
    ensures KeepsOwed(s, Step(max, s, e))
  {
    var id := s.execs[e.x].task;
    match e {
      case ClaimRaises(x, applied) =>
        TakeKeepsOwed(s, x);
        MoveKeepsOwed(s, if applied then TakeRow(s, x) else s, x, InFailure, false);
      case FinalWrite(x, ok) =>
        WriteKeepsOwed(s, id, if ok then Completed else Failed);
        MoveKeepsOwed(s, Write(s, id, if ok then Completed else Failed), x, Body, true);
      case HandlerWrite(x) =>
        WriteKeepsOwed(s, id, Failed);
        MoveKeepsOwed(s, if s.execs[x].phase == InFailure then Write(s, id, Failed) else WriteCancelled(s, id),
                      x, Closing, true);
      case Return(x) => MoveKeepsOwed(s, s, x, Closing, true);
      case Raise(x) => MoveKeepsOwed(s, s, x, InFailure, s.execs[x].wrote);
    }
  }

  lemma ClaimOwed(max: nat, s: State, x: nat)
    requires Enabled(s, Claim(x))
    ensures var id, s' := s.execs[x].task, Step(max, s, Claim(x));
            && s'.todo == s.todo && s'.pending == s.pending
            && s'.running == if Is(s, id, Queued) then s.running else s.running - {id}
  {
    var id := s.execs[x].task;
    TakeKeepsOwed(s, x);
    if Is(s, id, Queued) {
      MoveKeepsOwed(s, TakeRow(s, x), x, Body, false);
    }
  }

  lemma PerformOwed(max: nat, u: State, t: Todo)
    requires t.MarkFailed? || t.CancelWrite?
    ensures KeepsOwed(u, Perform(max, u, t))
  {
    WriteKeepsOwed(u, t.id, Failed);
  }

  lemma PerformBinds(max: nat, s: State, u: State, d: Todo, t: Todo)
    requires d in s.todo && u == s.(todo := s.todo - multiset{d})
    ensures Perform(max, u, d).todo[t] == u.todo[t] + if Binds(max, s, Do(d), t) then 1 else 0
  {
    match d {
      case Acquire(id) => AcquireBinds(max, s, u, id, t);
      case MarkFailed(_) => PerformOwed(max, u, d);
      case CancelWrite(_) => PerformOwed(max, u, d);
      case _ => RequestBinds(max, s, u, d, t);
    }
  }

  lemma AcquireBinds(max: nat, s: State, u: State, id: TaskId, t: Todo)
    requires Acquire(id) in s.todo && u == s.(todo := s.todo - multiset{Acquire(id)})
    ensures Perform(max, u, Acquire(id)).todo[t] == u.todo[t] + if Binds(max, s, Do(Acquire(id)), t) then 1 else 0
  {
    if |s.slots| >= max {
      assert Perform(max, u, Acquire(id)).todo == u.todo + multiset{MarkFailed(id)};
    } else {
      assert Perform(max, u, Acquire(id)).todo == u.todo;
    }
  }

  lemma RequestBinds(max: nat, s: State, u: State, d: Todo, t: Todo)
    requires d in s.todo && u == s.(todo := s.todo - multiset{d}) && (d.Signal? || d.Recheck? || d.Remove?)
    ensures Perform(max, u, d).todo[t] == u.todo[t] + if Binds(max, s, Do(d), t) then 1 else 0
  {
    match d {
      case Signal(id, _) => assert Perform(max, u, d).todo == u.todo + multiset{CancelWrite(id)};
      case Recheck(id) =>
        assert Perform(max, u, d).todo == if Is(s, id, Running) then u.todo else u.todo + multiset{Remove(id)};
      case Remove(_) => assert Perform(max, u, d).todo == u.todo;
    }
  }

  lemma EnqueueBinds(max: nat, s: State, e: Event, t: Todo)
    requires Enabled(s, e) && (e.Create? || e.Retry?)
    ensures Step(max, s, e).todo[t] == s.todo[t] + if Binds(max, s, e, t) then 1 else 0
  {
    assert Step(max, s, e).todo == s.todo + multiset{Acquire(e.id)};
  }

  lemma PlainBinds(max: nat, s: State, e: Event, t: Todo)
    requires Enabled(s, e) && (e.Begin? || e.Cancel? || e.Delete? || e.Finally?)
    ensures Step(max, s, e).todo[t] == s.todo[t] + if Binds(max, s, e, t) then 1 else 0
  {
    match e {
      case Cancel(id) => assert Step(max, s, e).todo == s.todo + multiset{Signal(id, s.running[id])};
      case Delete(id) => assert Step(max, s, e).todo == s.todo + multiset{Recheck(id)};
      case Begin(_) => assert Step(max, s, e).todo == s.todo;
      case Finally(_) => assert Step(max, s, e).todo == s.todo;
    }
  }

  lemma SilentBinds(max: nat, s: State, e: Event, t: Todo)
    requires !Enabled(s, e) || Writing(e) || e.Claim? || e.Resume?
    ensures !Binds(max, s, e, t)
    ensures e == Do(t) ==> t !in s.todo
  {}

  lemma SilentStep(max: nat, s: State, e: Event)
    requires Enabled(s, e) && (Writing(e) || e.Claim? || e.Resume?)
    ensures Step(max, s, e).todo == s.todo
  {
    if Writing(e) {
      OwnKeepsOwed(max, s, e);
    } else if e.Claim? {
      ClaimOwed(max, s, e.x);
    } else {
      DeliverKeepsOwed(s.(pending := s.pending - {e.x}), e.x, e.effect);
    }
  }

  lemma StepBinds(max: nat, s: State, e: Event, t: Todo)
    ensures Step(max, s, e).todo[t] == s.todo[t] + (if Binds(max, s, e, t) then 1 else 0)
                                         - if e == Do(t) && t in s.todo then 1 else 0
  {
    if !Enabled(s, e) || Writing(e) || e.Claim? || e.Resume? {
      SilentBinds(max, s, e, t);
      if Enabled(s, e) {
        SilentStep(max, s, e);
      }
    } else if e.Do? {
      PerformBinds(max, s, s.(todo := s.todo - multiset{e.t}), e.t, t);
    } else if e.Create? || e.Retry? {
      EnqueueBinds(max, s, e, t);
    } else {
      PlainBinds(max, s, e, t);
    }
  }

  /** In every run the steps that requests still owe are those they were bound to and have not taken: a
      failed mark after a refused start, a cancel write after a signal, a removal after a check that found
      the row not running. */
  lemma {:induction false} OwedIsBoundNotTaken(max: nat, es: seq<Event>, t: Todo)
    ensures Run(max, es).todo[t] == Bound(max, es, t) - Taken(max, es, t)
  {
    if es == [] {
    } else {
      var n := |es| - 1;
      OwedIsBoundNotTaken(max, es[..n], t);
      StepBinds(max, Run(max, es[..n]), es[n], t);
    }
  }

  // ----------------------------------------------------- cancellations and the running table

  predicate SignalsTo(s: State, e: Event, x: nat) {
    e.Do? && e.t.Signal? && e.t.x == x && e.t in s.todo && x in s.execs
  }

  predicate Resumes(s: State, e: Event, x: nat) { e.Resume? && e.x == x && x in s.pending && x in s.execs }

  lemma PerformPending(max: nat, s: State, u: State, t: Todo, x: nat)
    requires t in s.todo && u == s.(todo := s.todo - multiset{t})
    ensures x in Perform(max, u, t).pending <==> SignalsTo(s, Do(t), x) || x in s.pending
    ensures Perform(max, u, t).running == s.running
  {
    if t.MarkFailed? || t.CancelWrite? {
      PerformOwed(max, u, t);
    }
  }

  lemma StepPending(max: nat, s: State, e: Event, x: nat)
    ensures x in Step(max, s, e).pending <==> SignalsTo(s, e, x) || (!Resumes(s, e, x) && x in s.pending)
  {
    if Enabled(s, e) {
      if Writing(e) {
        OwnKeepsOwed(max, s, e);
      } else {
        match e {
          case Do(t) => PerformPending(max, s, s.(todo := s.todo - multiset{t}), t, x);
          case Resume(y, effect) => DeliverKeepsOwed(s.(pending := s.pending - {y}), y, effect);
          case Claim(y) => ClaimOwed(max, s, y);
          case _ => PlainPending(max, s, e);
        }
      }
    }
  }

  lemma PlainPending(max: nat, s: State, e: Event)
    requires Enabled(s, e) && (e.Create? || e.Retry? || e.Begin? || e.Cancel? || e.Delete? || e.Finally?)
    ensures Step(max, s, e).pending == s.pending
  {}

  /** In every run an execution will resume with a cancellation exactly if it was signalled while alive and
      has not resumed since. */
  lemma {:induction false} PendingIsSignalled(max: nat, es: seq<Event>, x: nat)
    ensures x in Run(max, es).pending
            <==> LastOf(max, es, (s, e) => SignalsTo(s, e, x), (s, e) => Resumes(s, e, x))
  {
    if es == [] {
    } else {
      var before, e := es[..|es| - 1], es[|es| - 1];
      assert es == before + [e];
      PendingIsSignalled(max, before, x);
      LastOfSnoc(max, before, e, (s, e) => SignalsTo(s, e, x), (s, e) => Resumes(s, e, x));
      StepPending(max, Run(max, before), e, x);
    }
  }

  predicate Lists(s: State, e: Event, id: TaskId, x: nat) { e == Begin(x) && By(s, x, id) && Free(s, x, Waiting) }

  /** An execution of the id begins, finds its row not queued, or ends. */
  predicate Relists(s: State, e: Event, id: TaskId) {
    match e
    case Begin(x) => By(s, x, id) && Free(s, x, Waiting)
    case Claim(x) => By(s, x, id) && Free(s, x, Ready) && !Is(s, id, Queued)
    case Finally(x) => By(s, x, id) && Free(s, x, Leaving)
    case _ => false
  }

  predicate Listed(s: State, id: TaskId, x: nat) { id in s.running && s.running[id] == x }

  lemma StepLists(max: nat, s: State, e: Event, id: TaskId, x: nat)
    ensures Listed(Step(max, s, e), id, x) <==> Lists(s, e, id, x) || (!Relists(s, e, id) && Listed(s, id, x))
  {
    if Enabled(s, e) {
      if Writing(e) {
        OwnKeepsOwed(max, s, e);
      } else {
        match e {
          case Do(t) => PerformPending(max, s, s.(todo := s.todo - multiset{t}), t, x);
          case Resume(y, effect) => DeliverKeepsOwed(s.(pending := s.pending - {y}), y, effect);
          case Claim(y) => ClaimOwed(max, s, y);
          case _ => PlainTable(max, s, e);
        }
      }
    }
  }

  lemma PlainTable(max: nat, s: State, e: Event)
    requires Enabled(s, e) && (e.Create? || e.Retry? || e.Begin? || e.Cancel? || e.Delete? || e.Finally?)
    ensures Step(max, s, e).running == match e
              case Begin(x) => s.running[s.execs[x].task := x]
              case Finally(x) => s.running - {s.execs[x].task}
              case _ => s.running
  {}

  /** In every run the table names for an id the execution that began last, until one of the id leaves. */
  lemma {:induction false} TableIsLastBegun(max: nat, es: seq<Event>, id: TaskId, x: nat)
    ensures Listed(Run(max, es), id, x)
            <==> LastOf(max, es, (s, e) => Lists(s, e, id, x), (s, e) => Relists(s, e, id))
  {
    if es == [] {
    } else {
      var before, e := es[..|es| - 1], es[|es| - 1];
      assert es == before + [e];
      TableIsLastBegun(max, before, id, x);
      LastOfSnoc(max, before, e, (s, e) => Lists(s, e, id, x), (s, e) => Relists(s, e, id));
      StepLists(max, Run(max, before), e, id, x);
    }
  }
}
