/** Real-time task events (`executor.py`): every listener has a bounded queue, and a listener that
    reads too slowly loses its oldest events. */
module Listeners {
  import opened Options

  type TaskId = string
  type Event = string

  const STREAM_LISTENER_QUEUE_MAXSIZE := 100

  /** A queue of at most `size` events after one more event has been offered to it. */
  function Offered(items: seq<Event>, e: Event, size: nat): seq<Event>
    requires size > 0
  {
    if |items| < size then items + [e] else items[1..] + [e]
  }

  // --------------------------------------------------------------- what each step does

  /** What happens to one hub, in the order of the event loop.  Queues are numbered in the order of
      their subscription; a reader takes the oldest event of its queue, if there is one. */
  datatype Step =
    | Subscribes(task: TaskId)
    | Unsubscribes(task: TaskId, q: nat)
    | Broadcasts(task: TaskId, event: Event)
    | Reads(q: nat)
    | CleansUp(task: TaskId)

  datatype State = State(listed: map<TaskId, set<nat>>, queues: seq<seq<Event>>)

  predicate Hears(s: State, task: TaskId, q: nat) { task in s.listed && q in s.listed[task] }

  function After(s: State, step: Step, size: nat): State
    requires size > 0
  {
    match step
    case Subscribes(t) =>
      State(s.listed[t := (if t in s.listed then s.listed[t] else {}) + {|s.queues|}], s.queues + [[]])
    case Unsubscribes(t, q) =>
      if !Hears(s, t, q) then s
      else if s.listed[t] == {q} then s.(listed := s.listed - {t})
      else s.(listed := s.listed[t := s.listed[t] - {q}])
    case Broadcasts(t, e) =>
      s.(queues := seq(|s.queues|, i requires 0 <= i < |s.queues| =>
        if Hears(s, t, i) then Offered(s.queues[i], e, size) else s.queues[i]))
    case Reads(q) =>
      if q < |s.queues| && s.queues[q] != [] then s.(queues := s.queues[q := s.queues[q][1..]]) else s
    case CleansUp(t) => s.(listed := s.listed - {t})
  }

  // ------------------------------------------------------------------ the executor's hub

  class EventQueue {
    const maxsize: nat
    var items: seq<Event>

    constructor (maxsize: nat)
      ensures this.maxsize == maxsize && items == []
    {
      this.maxsize, items := maxsize, [];
    }

    method PutNowait(e: Event) returns (full: bool)
      modifies this
      ensures full == (old(|items|) >= maxsize)
      ensures items == if full then old(items) else old(items) + [e]
    {
      full := |items| >= maxsize;
      if !full {
        items := items + [e];
      }
    }

    method GetNowait() returns (e: Option<Event>)
      modifies this
      ensures items == if old(items) == [] then [] else old(items)[1..]
      ensures e == if old(items) == [] then None else Some(old(items)[0])
    {
      e := None;
      if items != [] {
        e := Some(items[0]);
        items := items[1..];
      }
    }
  }

  type Listing = map<TaskId, seq<EventQueue>>

  ghost function AllOf(m: Listing): set<EventQueue> { set t, q | t in m && q in m[t] :: q }

  /** Every queue is listed once, for one task, and no task has an empty list. */
  ghost predicate Orderly(m: Listing) {
    && (forall t | t in m :: m[t] != [] && forall i, j | 0 <= i < j < |m[t]| :: m[t][i] != m[t][j])
    && (forall t, u, q | t in m && u in m && q in m[t] && q in m[u] :: t == u)
  }

  function ListenersOf(m: Listing, task: TaskId): seq<EventQueue> { if task in m then m[task] else [] }

  function WithoutIndex<T>(s: seq<T>, i: nat): seq<T>
    requires i < |s|
  {
    s[..i] + s[i + 1..]
  }

  lemma AddedIsOrderly(m: Listing, task: TaskId, q: EventQueue)
    requires Orderly(m) && q !in AllOf(m)
    ensures Orderly(m[task := ListenersOf(m, task) + [q]])
    ensures AllOf(m[task := ListenersOf(m, task) + [q]]) == AllOf(m) + {q}
  {
    var n := m[task := ListenersOf(m, task) + [q]];
    assert forall t | t in m :: forall o | o in m[t] :: o in AllOf(m);
    assert q in n[task];
    forall o | o in AllOf(m) ensures o in AllOf(n) {
      var t :| t in m && o in m[t];
      assert t in n && o in n[t];
    }
    forall o | o in AllOf(n) ensures o in AllOf(m) || o == q {
      var t :| t in n && o in n[t];
      assert o != q ==> t in m && o in m[t];
    }
  }

  lemma RemovedIsOrderly(m: Listing, task: TaskId, i: nat)
    requires Orderly(m) && task in m && i < |m[task]|
    ensures var rest := WithoutIndex(m[task], i);
            && m[task][i] !in rest
            && Orderly(if rest == [] then m - {task} else m[task := rest])
            && AllOf(if rest == [] then m - {task} else m[task := rest]) <= AllOf(m)
  {
    var rest := WithoutIndex(m[task], i);
    assert forall o | o in rest :: o in m[task];
  }

  /** The listing without one queue; a task without queues goes. */
  function Unlisted(m: Listing, task: TaskId, i: nat): Listing
    requires task in m && i < |m[task]|
  {
    var rest := WithoutIndex(m[task], i);
    if rest == [] then m - {task} else m[task := rest]
  }

  /** Only the queue itself leaves, and only from that entry. */
  lemma UnlistedLosesOne(m: Listing, task: TaskId, q: EventQueue)
    requires Orderly(m)
    ensures forall t | t != task :: ListenersOf(WithoutQueue(m, task, q), t) == ListenersOf(m, t)
    ensures forall o :: o in ListenersOf(WithoutQueue(m, task, q), task) <==> o in ListenersOf(m, task) && o != q
  {
    if q in ListenersOf(m, task) {
      var i := PlaceOf(m[task], q);
      assert forall o | o != q :: o in WithoutIndex(m[task], i) <==> o in m[task];
      RemovedIsOrderly(m, task, i);
    }
  }

  /** `all` lists each queue once, those of the listing among them. */
  ghost predicate Known(m: Listing, all: seq<EventQueue>) {
    && (forall i, j | 0 <= i < j < |all| :: all[i] != all[j])
    && (forall t, q | t in m && q in m[t] :: q in all)
  }

  ghost function Numbers(qs: seq<EventQueue>, all: seq<EventQueue>): set<nat> {
    set i: nat | i < |all| && all[i] in qs
  }

  /** The listing by queue numbers. */
  ghost function ListedIn(m: Listing, all: seq<EventQueue>): map<TaskId, set<nat>> {
    map t | t in m :: Numbers(m[t], all)
  }

  ghost function Items(all: seq<EventQueue>): seq<seq<Event>>
    reads all
  {
    seq(|all|, i requires 0 <= i < |all| reads all => all[i].items)
  }

  lemma AddedIsListed(m: Listing, all: seq<EventQueue>, task: TaskId, q: EventQueue)
    requires Known(m, all) && q !in all
    ensures var m', s := m[task := ListenersOf(m, task) + [q]], ListedIn(m, all);
            && Known(m', all + [q])
            && ListedIn(m', all + [q]) == s[task := (if task in s then s[task] else {}) + {|all|}]
  {
    var m', all' := m[task := ListenersOf(m, task) + [q]], all + [q];
    forall t | t in m && t != task ensures Numbers(m'[t], all') == Numbers(m[t], all) {
      assert q !in m[t];
    }
    assert Numbers(m'[task], all') == Numbers(ListenersOf(m, task), all) + {|all|};
    assert task !in m ==> Numbers(ListenersOf(m, task), all) == {};
  }

  lemma RemovedIsListed(m: Listing, all: seq<EventQueue>, task: TaskId, i: nat, k: nat)
    requires Orderly(m) && Known(m, all) && task in m && i < |m[task]| && k < |all| && all[k] == m[task][i]
    ensures var m', s := Unlisted(m, task, i), ListedIn(m, all);
            && Known(m', all)
            && ListedIn(m', all) == if s[task] == {k} then s - {task} else s[task := s[task] - {k}]
  {
    var rest, s := WithoutIndex(m[task], i), ListedIn(m, all);
    assert forall o | o != m[task][i] :: o in rest <==> o in m[task];
    RemovedIsOrderly(m, task, i);
    assert Numbers(rest, all) == s[task] - {k};
    if rest != [] {
      assert rest[0] in m[task] && rest[0] != m[task][i];
      assert rest[0] in all;
      var j :| 0 <= j < |all| && all[j] == rest[0];
      assert j in s[task] && j != k;
    } else {
      assert s[task] == {k};
    }
  }

  lemma HearsIsListed(m: Listing, all: seq<EventQueue>, queues: seq<seq<Event>>, task: TaskId, i: nat)
    requires i < |all|
    ensures Hears(State(ListedIn(m, all), queues), task, i) <==> all[i] in ListenersOf(m, task)
  {}

  lemma BroadcastIsAfter(m: Listing, all: seq<EventQueue>, before: seq<seq<Event>>, items: seq<seq<Event>>,
                         task: TaskId, e: Event)
    requires |before| == |items| == |all|
    requires forall k | 0 <= k < |all| ::
               items[k] == if all[k] in ListenersOf(m, task) then Offered(before[k], e, STREAM_LISTENER_QUEUE_MAXSIZE)
                           else before[k]
    ensures State(ListedIn(m, all), items)
         == After(State(ListedIn(m, all), before), Broadcasts(task, e), STREAM_LISTENER_QUEUE_MAXSIZE)
  {
    forall k: nat | k < |all|
      ensures Hears(State(ListedIn(m, all), before), task, k) <==> all[k] in ListenersOf(m, task)
    {
      HearsIsListed(m, all, before, task, k);
    }
  }

  function PlaceOf(qs: seq<EventQueue>, q: EventQueue): (i: nat)
    requires q in qs
    ensures i < |qs| && qs[i] == q
  {
    if qs[0] == q then 0 else 1 + PlaceOf(qs[1..], q)
  }

  function WithoutQueue(m: Listing, task: TaskId, q: EventQueue): Listing {
    if q in ListenersOf(m, task) then Unlisted(m, task, PlaceOf(m[task], q)) else m
  }

  lemma UnsubscribeIsAfter(m: Listing, all: seq<EventQueue>, queues: seq<seq<Event>>, task: TaskId, k: nat)
    requires Orderly(m) && Known(m, all) && k < |all|
    ensures State(ListedIn(WithoutQueue(m, task, all[k]), all), queues)
         == After(State(ListedIn(m, all), queues), Unsubscribes(task, k), STREAM_LISTENER_QUEUE_MAXSIZE)
  {
    HearsIsListed(m, all, queues, task, k);
    if all[k] in ListenersOf(m, task) {
      RemovedIsListed(m, all, task, PlaceOf(m[task], all[k]), k);
    }
  }

  lemma UnlistedIsKnown(m: Listing, all: seq<EventQueue>, task: TaskId, q: EventQueue)
    requires Orderly(m) && Known(m, all)
    ensures Orderly(WithoutQueue(m, task, q)) && Known(WithoutQueue(m, task, q), all)
  {
    if q in ListenersOf(m, task) {
      var i := PlaceOf(m[task], q);
      RemovedIsOrderly(m, task, i);
      assert forall o | o in WithoutIndex(m[task], i) :: o in m[task];
    }
  }

  class Hub {
    var listeners: Listing
    ghost var all: seq<EventQueue>  // every queue ever subscribed, in that order

    ghost predicate Valid()
      reads this, all
    {
      && Orderly(listeners) && Known(listeners, all)
      && (forall i | 0 <= i < |all| ::
            all[i].maxsize == STREAM_LISTENER_QUEUE_MAXSIZE && |all[i].items| <= STREAM_LISTENER_QUEUE_MAXSIZE)
    }

    /** The state of the hub and of its queues. */
    ghost function Abstract(): State
      reads this, all
    {
      State(ListedIn(listeners, all), Items(all))
    }

    constructor ()
      ensures Valid() && Abstract() == State(map[], [])
    {
      listeners, all := map[], [];
    }

    method Subscribe(task: TaskId) returns (q: EventQueue)
      requires Valid()
      modifies this
      ensures Valid() && fresh(q) && all == old(all) + [q]
      ensures listeners == old(listeners)[task := ListenersOf(old(listeners), task) + [q]]
      ensures Abstract() == After(old(Abstract()), Subscribes(task), STREAM_LISTENER_QUEUE_MAXSIZE)
    {
      ghost var before, were := listeners, Items(all);
      q := new EventQueue(STREAM_LISTENER_QUEUE_MAXSIZE);
      assert q !in all && q !in AllOf(before);
      AddedIsOrderly(before, task, q);
      AddedIsListed(before, all, task, q);
      if task !in listeners {
        listeners := listeners[task := []];
      }
      listeners := listeners[task := listeners[task] + [q]];
      all := all + [q];
      assert listeners == before[task := ListenersOf(before, task) + [q]];
      assert Items(all) == were + [[]];
    }

    /** The first entry of the queue goes; the others keep their order. */
    method Unsubscribe(task: TaskId, q: EventQueue)
      requires Valid()
      modifies this
      ensures Valid() && all == old(all)
      ensures listeners == WithoutQueue(old(listeners), task, q)
      ensures forall k: nat | k < |all| && all[k] == q ::
                Abstract() == After(old(Abstract()), Unsubscribes(task, k), STREAM_LISTENER_QUEUE_MAXSIZE)
    {
      ghost var was, s := listeners, Abstract();
      if task in listeners && q in listeners[task] {
        var i := PlaceOf(listeners[task], q);
        listeners := listeners[task := WithoutIndex(listeners[task], i)];
        if listeners[task] == [] {
          listeners := listeners - {task};
        }
        assert listeners == Unlisted(was, task, i);
      }
      forall k: nat | k < |all| && all[k] == q
        ensures Abstract() == After(s, Unsubscribes(task, k), STREAM_LISTENER_QUEUE_MAXSIZE)
      {
        UnsubscribeIsAfter(was, all, s.queues, task, k);
      }
      UnlistedIsKnown(was, all, task, q);
    }

    /** A full queue makes room by dropping its oldest event. */
    method EnqueueListenerEvent(q: EventQueue, e: Event)
      requires 0 < q.maxsize && |q.items| <= q.maxsize
      modifies q
      ensures q.items == Offered(old(q.items), e, q.maxsize)
    {
      var full := q.PutNowait(e);
      if full {
        var _ := q.GetNowait();
        full := q.PutNowait(e);
      }
    }

    /** Every queue of a snapshot of the list is offered the event once. */
    method OfferAll(snapshot: seq<EventQueue>, e: Event)
      requires forall i, j | 0 <= i < j < |snapshot| :: snapshot[i] != snapshot[j]
      requires forall q | q in snapshot :: q.maxsize == STREAM_LISTENER_QUEUE_MAXSIZE && |q.items| <= q.maxsize
      modifies snapshot
      ensures forall q | q in snapshot :: q.items == Offered(old(q.items), e, STREAM_LISTENER_QUEUE_MAXSIZE)
    {
      var i := 0;
      while i < |snapshot|
        invariant i <= |snapshot|
        invariant forall k | 0 <= k < |snapshot| ::
                    snapshot[k].items == if k < i then Offered(old(snapshot[k].items), e, STREAM_LISTENER_QUEUE_MAXSIZE)
                                         else old(snapshot[k].items)
      {
        EnqueueListenerEvent(snapshot[i], e);
        i := i + 1;
      }
    }

    /** Exactly the task's listeners are offered the event. */
    method Broadcast(task: TaskId, e: Event)
      requires Valid()
      modifies all
      ensures Valid()
      ensures Abstract() == After(old(Abstract()), Broadcasts(task, e), STREAM_LISTENER_QUEUE_MAXSIZE)
    {
      ghost var s := Abstract();
      if task in listeners {
        var snapshot := listeners[task];
        forall i | 0 <= i < |snapshot| ensures snapshot[i] in all {
          assert snapshot[i] in listeners[task];
        }
        OfferAll(snapshot, e);
      }
      BroadcastIsAfter(listeners, all, s.queues, Items(all), task, e);
    }

    /** The stream's reader takes the oldest event of its queue. */
    method Read(q: EventQueue) returns (e: Option<Event>)
      requires Valid() && q in all
      modifies q
      ensures Valid()
      ensures e == if old(q.items) == [] then None else Some(old(q.items)[0])
      ensures forall k: nat | k < |all| && all[k] == q ::
                Abstract() == After(old(Abstract()), Reads(k), STREAM_LISTENER_QUEUE_MAXSIZE)
    {
      ghost var s := Abstract();
      e := q.GetNowait();
      forall k: nat | k < |all| && all[k] == q
        ensures Items(all) == After(s, Reads(k), STREAM_LISTENER_QUEUE_MAXSIZE).queues
      {
        assert s.queues[k] == old(q.items);
      }
    }

    method CleanupListeners(task: TaskId)
      requires Valid()
      modifies this
      ensures Valid() && all == old(all) && listeners == old(listeners) - {task}
      ensures Abstract() == After(old(Abstract()), CleansUp(task), STREAM_LISTENER_QUEUE_MAXSIZE)
    {
      if task in listeners {
        listeners := listeners - {task};
      }
      assert ListedIn(listeners, all) == ListedIn(old(listeners), all) - {task};
    }
  }

  // ------------------------------------------------------------------------- whole runs

  function Run(steps: seq<Step>, n: nat, size: nat): State
    requires n <= |steps| && size > 0
  {
    if n == 0 then State(map[], []) else After(Run(steps, n - 1, size), steps[n - 1], size)
  }

  /** The events broadcast to queue `q` while it was listed. */
  function Heard(steps: seq<Step>, n: nat, size: nat, q: nat): seq<Event>
    requires n <= |steps| && size > 0
  {
    if n == 0 then []
    else Heard(steps, n - 1, size, q) + HeardNow(Run(steps, n - 1, size), steps[n - 1], q)
  }

  function HeardNow(s: State, step: Step, q: nat): seq<Event> {
    if step.Broadcasts? && q < |s.queues| && Hears(s, step.task, q) then [step.event] else []
  }

  /** The events taken from queue `q`. */
  function Taken(steps: seq<Step>, n: nat, size: nat, q: nat): seq<Event>
    requires n <= |steps| && size > 0
  {
    if n == 0 then []
    else Taken(steps, n - 1, size, q) + TakenNow(Run(steps, n - 1, size), steps[n - 1], q)
  }

  function TakenNow(s: State, step: Step, q: nat): seq<Event> {
    if step == Reads(q) && q < |s.queues| && s.queues[q] != [] then [s.queues[q][0]] else []
  }

  /** How often a broadcast found queue `q` full. */
  function Overruns(steps: seq<Step>, n: nat, size: nat, q: nat): nat
    requires n <= |steps| && size > 0
  {
    if n == 0 then 0
    else Overruns(steps, n - 1, size, q) + OverrunNow(Run(steps, n - 1, size), steps[n - 1], size, q)
  }

  function OverrunNow(s: State, step: Step, size: nat, q: nat): nat {
    if HeardNow(s, step, q) != [] && |s.queues[q]| >= size then 1 else 0
  }

  /** `places` says where in `b` the events of `a` stand, in order. */
  ghost predicate Picks(places: seq<nat>, a: seq<Event>, b: seq<Event>) {
    && |places| == |a|
    && (forall i | 0 <= i < |a| :: places[i] < |b| && b[places[i]] == a[i])
    && (forall i, j | 0 <= i < j < |a| :: places[i] < places[j])
  }

  /** `a` can be obtained from `b` by leaving events out. */
  ghost predicate InOrderPartOf(a: seq<Event>, b: seq<Event>) {
    exists places :: Picks(places, a, b)
  }

  lemma PartOfLonger(a: seq<Event>, b: seq<Event>, c: seq<Event>)
    requires InOrderPartOf(a, b)
    ensures InOrderPartOf(a, b + c)
  {
    var places :| Picks(places, a, b);
    assert Picks(places, a, b + c);
  }

  lemma PartsJoined(a: seq<Event>, b: seq<Event>, c: seq<Event>)
    requires InOrderPartOf(a, b)
    ensures InOrderPartOf(a + c, b + c)
  {
    var places :| Picks(places, a, b);
    assert Picks(places + seq(|c|, i => |b| + i), a + c, b + c);
  }

  lemma PartExtended(a: seq<Event>, b: seq<Event>, e: Event)
    requires InOrderPartOf(a, b)
    ensures InOrderPartOf(a + [e], b + [e])
  {
    PartsJoined(a, b, [e]);
  }

  lemma {:induction false} PlacesGrow(places: seq<nat>, a: seq<Event>, b: seq<Event>, i: nat)
    requires Picks(places, a, b) && i < |a|
    ensures i <= places[i] && places[i] + (|a| - 1 - i) < |b|
    decreases |a| - i
  {
    if i == 0 {
    } else {
      PlaceAtLeast(places, a, b, i - 1);
    }
    if i + 1 < |a| {
      PlacesGrow(places, a, b, i + 1);
    }
  }

  lemma {:induction false} PlaceAtLeast(places: seq<nat>, a: seq<Event>, b: seq<Event>, i: nat)
    requires Picks(places, a, b) && i < |a|
    ensures i <= places[i]
  {
    if i == 0 {
    } else {
      PlaceAtLeast(places, a, b, i - 1);
    }
  }

  /** A part of full length is the whole. */
  lemma WholePart(a: seq<Event>, b: seq<Event>)
    requires InOrderPartOf(a, b)
    ensures |a| <= |b|
    ensures |a| == |b| ==> a == b
  {
    var places :| Picks(places, a, b);
    forall i | 0 <= i < |a| ensures i <= places[i] && places[i] + (|a| - 1 - i) < |b| {
      PlacesGrow(places, a, b, i);
    }
    if a != [] {
      PlacesGrow(places, a, b, 0);
    }
  }

  /** One queue, what was taken from it and what was heard: the queue holds the newest events heard,
      up to the bound; what was taken is an in-order part of the others, with the newest event among
      them if the queue has run empty; and each event neither queued nor taken was an overrun. */
  ghost predicate Tracks(queue: seq<Event>, taken: seq<Event>, heard: seq<Event>, overruns: nat, size: nat) {
    && |queue| <= size && |queue| <= |heard|
    && queue == heard[|heard| - |queue|..]
    && InOrderPartOf(taken, heard[..|heard| - |queue|])
    && (queue == [] && heard != [] ==> taken != [] && taken[|taken| - 1] == heard[|heard| - 1])
    && |heard| == |taken| + |queue| + overruns
  }

  lemma NothingTracks(size: nat)
    ensures Tracks([], [], [], 0, size)
  {
    var none: seq<Event> := [];
    assert none[..|none| - |none|] == none && none[|none| - |none|..] == none;
    assert Picks([], none, none);
  }

  lemma OfferTracks(queue: seq<Event>, taken: seq<Event>, heard: seq<Event>, overruns: nat, size: nat, e: Event)
    requires size > 0 && Tracks(queue, taken, heard, overruns, size)
    ensures Tracks(Offered(queue, e, size), taken, heard + [e],
                   overruns + if |queue| >= size then 1 else 0, size)
  {
    var k := |heard| - |queue|;
    if |queue| < size {
      assert (heard + [e])[..k] == heard[..k];
    } else {
      PartOfLonger(taken, heard[..k], [heard[k]]);
      assert (heard + [e])[..k + 1] == heard[..k] + [heard[k]];
    }
  }

  lemma TakeTracks(queue: seq<Event>, taken: seq<Event>, heard: seq<Event>, overruns: nat, size: nat)
    requires queue != [] && Tracks(queue, taken, heard, overruns, size)
    ensures Tracks(queue[1..], taken + [queue[0]], heard, overruns, size)
  {
    var k := |heard| - |queue|;
    PartExtended(taken, heard[..k], queue[0]);
    assert heard[..k + 1] == heard[..k] + [queue[0]];
  }

  ghost predicate TracksAt(steps: seq<Step>, n: nat, size: nat, q: nat)
    requires n <= |steps| && size > 0 && q < |Run(steps, n, size).queues|
  {
    Tracks(Run(steps, n, size).queues[q], Taken(steps, n, size, q), Heard(steps, n, size, q),
           Overruns(steps, n, size, q), size)
  }

  lemma QueueAfter(s: State, step: Step, size: nat, q: nat)
    requires size > 0 && q < |s.queues|
    ensures q < |After(s, step, size).queues|
    ensures After(s, step, size).queues[q] == NextQueue(s.queues[q], HeardNow(s, step, q), TakenNow(s, step, q), size)
    ensures MayFollow(s.queues[q], HeardNow(s, step, q), TakenNow(s, step, q))
  {}

  /** What becomes of a queue that hears `h` or gives `t`. */
  function NextQueue(queue: seq<Event>, h: seq<Event>, t: seq<Event>, size: nat): seq<Event>
    requires size > 0 && MayFollow(queue, h, t)
  {
    if h != [] then Offered(queue, h[0], size) else if t != [] then queue[1..] else queue
  }

  predicate MayFollow(queue: seq<Event>, h: seq<Event>, t: seq<Event>) {
    && (h == [] || (|h| == 1 && t == []))
    && (t == [] || (queue != [] && t == [queue[0]]))
  }

  lemma {:induction false} NothingBeforeSubscription(steps: seq<Step>, n: nat, size: nat, q: nat)
    requires n <= |steps| && size > 0 && q >= |Run(steps, n, size).queues|
    ensures Heard(steps, n, size, q) == Taken(steps, n, size, q) == [] && Overruns(steps, n, size, q) == 0
  {
    if n == 0 {
    } else {
      NothingBeforeSubscription(steps, n - 1, size, q);
    }
  }

  lemma NextTracks(queue: seq<Event>, next: seq<Event>, taken: seq<Event>, t: seq<Event>, heard: seq<Event>,
                   h: seq<Event>, overruns: nat, over: nat, size: nat)
    requires over == if h != [] && |queue| >= size then 1 else 0
    requires size > 0 && Tracks(queue, taken, heard, overruns, size)
    requires MayFollow(queue, h, t) && next == NextQueue(queue, h, t, size)
    ensures Tracks(next, taken + t, heard + h, overruns + over, size)
  {
    assert taken + [] == taken && heard + [] == heard;
    if h != [] {
      assert h == [h[0]];
      OfferTracks(queue, taken, heard, overruns, size, h[0]);
    } else if t != [] {
      TakeTracks(queue, taken, heard, overruns, size);
    }
  }

  lemma StepTracks(s: State, step: Step, size: nat, q: nat, taken: seq<Event>, heard: seq<Event>, overruns: nat)
    requires size > 0 && q < |s.queues| && Tracks(s.queues[q], taken, heard, overruns, size)
    ensures q < |After(s, step, size).queues|
    ensures Tracks(After(s, step, size).queues[q], taken + TakenNow(s, step, q), heard + HeardNow(s, step, q),
                   overruns + OverrunNow(s, step, size, q), size)
  {
    QueueAfter(s, step, size, q);
    NextTracks(s.queues[q], After(s, step, size).queues[q], taken, TakenNow(s, step, q), heard,
               HeardNow(s, step, q), overruns, OverrunNow(s, step, size, q), size);
  }

  lemma OneStepMore(steps: seq<Step>, n: nat, size: nat, q: nat)
    requires 0 < n <= |steps| && size > 0
    ensures var s, step := Run(steps, n - 1, size), steps[n - 1];
            && Run(steps, n, size) == After(s, step, size)
            && Taken(steps, n, size, q) == Taken(steps, n - 1, size, q) + TakenNow(s, step, q)
            && Heard(steps, n, size, q) == Heard(steps, n - 1, size, q) + HeardNow(s, step, q)
            && Overruns(steps, n, size, q) == Overruns(steps, n - 1, size, q) + OverrunNow(s, step, size, q)
  {}

  lemma TracksOneMore(steps: seq<Step>, n: nat, size: nat, q: nat)
    requires 0 < n <= |steps| && size > 0 && q < |Run(steps, n - 1, size).queues|
    requires TracksAt(steps, n - 1, size, q)
    ensures q < |Run(steps, n, size).queues| && TracksAt(steps, n, size, q)
  {
    OneStepMore(steps, n, size, q);
    StepTracks(Run(steps, n - 1, size), steps[n - 1], size, q, Taken(steps, n - 1, size, q),
               Heard(steps, n - 1, size, q), Overruns(steps, n - 1, size, q));
  }

  lemma TracksFromStart(steps: seq<Step>, n: nat, size: nat, q: nat)
    requires 0 < n <= |steps| && size > 0
    requires |Run(steps, n - 1, size).queues| <= q < |Run(steps, n, size).queues|
    ensures TracksAt(steps, n, size, q)
  {
    NothingBeforeSubscription(steps, n - 1, size, q);
    NothingTracks(size);
    OneStepMore(steps, n, size, q);
    NewQueueIsEmpty(Run(steps, n - 1, size), steps[n - 1], size, q);
  }

  /** In every run, every queue keeps track of its broadcasts. */
  lemma {:induction false} QueuesTrack(steps: seq<Step>, n: nat, size: nat, q: nat)
    requires n <= |steps| && size > 0 && q < |Run(steps, n, size).queues|
    ensures TracksAt(steps, n, size, q)
  {
    if n == 0 {
    } else {
      if q >= |Run(steps, n - 1, size).queues| {
        TracksFromStart(steps, n, size, q);
      } else {
        QueuesTrack(steps, n - 1, size, q);
        TracksOneMore(steps, n, size, q);
      }
    }
  }

  lemma NewQueueIsEmpty(s: State, step: Step, size: nat, q: nat)
    requires size > 0 && |s.queues| <= q < |After(s, step, size).queues|
    ensures After(s, step, size).queues[q] == []
    ensures HeardNow(s, step, q) == TakenNow(s, step, q) == [] && OverrunNow(s, step, size, q) == 0
  {}

  /** The queue is within its bound; what was taken and is queued are, in order, events that were
      heard, the newest among them; and nothing is missing exactly when there was no overrun. */
  ghost predicate HeardInOrder(queue: seq<Event>, taken: seq<Event>, heard: seq<Event>, overruns: nat, size: nat) {
    var all := taken + queue;
    && |queue| <= size
    && InOrderPartOf(all, heard)
    && (heard != [] ==> all != [] && all[|all| - 1] == heard[|heard| - 1])
    && (all == heard <==> overruns == 0)
  }

  lemma TrackedMeans(queue: seq<Event>, taken: seq<Event>, heard: seq<Event>, overruns: nat, size: nat)
    requires Tracks(queue, taken, heard, overruns, size)
    ensures HeardInOrder(queue, taken, heard, overruns, size)
  {
    var early := heard[..|heard| - |queue|];
    assert heard == early + queue;
    PartsJoined(taken, early, queue);
    assert InOrderPartOf(taken + queue, heard);
    WholePart(taken, early);
    assert overruns == 0 <==> |taken| == |early|;
    assert overruns != 0 ==> |taken + queue| != |heard|;
    assert queue != [] ==> (taken + queue)[|taken + queue| - 1] == heard[|heard| - 1];
  }

  /** Every listener in every run hears its task's broadcasts in order. */
  lemma ListenersHearInOrder(steps: seq<Step>, n: nat, size: nat, q: nat)
    requires n <= |steps| && size > 0 && q < |Run(steps, n, size).queues|
    ensures HeardInOrder(Run(steps, n, size).queues[q], Taken(steps, n, size, q), Heard(steps, n, size, q),
                         Overruns(steps, n, size, q), size)
  {
    QueuesTrack(steps, n, size, q);
    TrackedMeans(Run(steps, n, size).queues[q], Taken(steps, n, size, q), Heard(steps, n, size, q),
                 Overruns(steps, n, size, q), size);
  }

  // ---------------------------------------------------------------------- who listens

  /** How many of the first `n` steps are subscriptions; they number the queues. */
  function Subscriptions(steps: seq<Step>, n: nat): nat
    requires n <= |steps|
  {
    if n == 0 then 0 else Subscriptions(steps, n - 1) + if steps[n - 1].Subscribes? then 1 else 0
  }

  lemma {:induction false} QueuesAreSubscriptions(steps: seq<Step>, n: nat, size: nat)
    requires n <= |steps| && size > 0
    ensures |Run(steps, n, size).queues| == Subscriptions(steps, n)
  {
    if n == 0 {
    } else {
      QueuesAreSubscriptions(steps, n - 1, size);
    }
  }

  predicate Leaves(step: Step, task: TaskId, q: nat) { step == Unsubscribes(task, q) || step == CleansUp(task) }

  /** Queue `q` was subscribed for the task by step `i`, and neither it nor all of the task's queues were
      taken off the list since. */
  ghost predicate ListensSince(steps: seq<Step>, i: nat, n: nat, task: TaskId, q: nat)
    requires i < n <= |steps|
  {
    && steps[i] == Subscribes(task) && Subscriptions(steps, i) == q
    && forall j | i < j < n :: !Leaves(steps[j], task, q)
  }

  ghost predicate Listens(steps: seq<Step>, n: nat, task: TaskId, q: nat)
    requires n <= |steps|
  {
    exists i: nat :: i < n && ListensSince(steps, i, n, task, q)
  }

  lemma HearsAfter(s: State, step: Step, size: nat, task: TaskId, q: nat)
    requires size > 0
    ensures Hears(After(s, step, size), task, q)
            <==> (step == Subscribes(task) && q == |s.queues|) || (Hears(s, task, q) && !Leaves(step, task, q))
  {}

  /** In every run a queue hears a task's broadcasts exactly from its subscription for that task until it is
      unsubscribed or the task is cleaned up. */
  lemma {:induction false} HearsIffSubscribed(steps: seq<Step>, n: nat, size: nat, task: TaskId, q: nat)
    requires n <= |steps| && size > 0
    ensures Hears(Run(steps, n, size), task, q) <==> Listens(steps, n, task, q)
  {
    if n == 0 {
    } else {
      HearsIffSubscribed(steps, n - 1, size, task, q);
      QueuesAreSubscriptions(steps, n - 1, size);
      HearsAfter(Run(steps, n - 1, size), steps[n - 1], size, task, q);
      ListensLonger(steps, n, task, q);
    }
  }

  lemma ListensLonger(steps: seq<Step>, n: nat, task: TaskId, q: nat)
    requires 0 < n <= |steps|
    ensures Listens(steps, n, task, q)
            <==> || (steps[n - 1] == Subscribes(task) && Subscriptions(steps, n - 1) == q)
                 || (Listens(steps, n - 1, task, q) && !Leaves(steps[n - 1], task, q))
  {
    var m: nat := n - 1;
    forall i: nat | i < m
      ensures ListensSince(steps, i, n, task, q)
              <==> ListensSince(steps, i, m, task, q) && !Leaves(steps[m], task, q)
    {
    }
    assert ListensSince(steps, m, n, task, q)
           <==> steps[m] == Subscribes(task) && Subscriptions(steps, m) == q;
  }
}
