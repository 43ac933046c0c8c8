/** internal/structure/queue.go: a bounded FIFO whose producers and consumers wait on one
    shared condition variable. Each stretch of code between acquiring the mutex and
    releasing it, by returning or by waiting, is one atomic step. */
module Queues {
  import opened Options

  // ----- the buffer: what the critical sections do to the fields -----

  datatype Buffer<T> = Buffer(items: seq<T>, closed: bool)

  /** Appends unless closed or full. */
  function Offer<T>(b: Buffer<T>, capacity: nat, item: T): (Buffer<T>, bool) {
    if b.closed || |b.items| >= capacity then (b, false) else (b.(items := b.items + [item]), true)
  }

  /** Takes the oldest item, closed or not. */
  function Poll<T>(b: Buffer<T>): (Buffer<T>, Option<T>) {
    if b.items == [] then (b, None) else (b.(items := b.items[1..]), Some(b.items[0]))
  }

  // ----- the threads -----

  /** What a thread inside a blocking call is there for. */
  datatype Want<T> = Putting(item: T) | Taking

  datatype Exit<T> = Dequeued(item: T) | Cleared(item: T)

  /** The buffer, the threads parked on the condition variable, those signalled but not yet
      running, and the history of items accepted and of items that left. */
  datatype State<T> = State(
    capacity: nat,
    buffer: Buffer<T>,
    waiting: map<nat, Want<T>>,
    woken: map<nat, Want<T>>,
    accepted: seq<T>,
    left: seq<Exit<T>>)

  /** `wake` is the parked thread a Signal picks; `expired` says that a timeout was given and
      the deadline has passed. */
  datatype Action<T> =
    | Enqueue(item: T, wake: nat)
    | Dequeue(wake: nat)
    | EnqueueBlocking(thread: nat, item: T, expired: bool, wake: nat)
    | DequeueBlocking(thread: nat, expired: bool, wake: nat)
    | Resume(thread: nat, expired: bool, wake: nat)
    | Close
    | Clear

  function Start<T>(capacity: nat): State<T> {
    State(capacity, Buffer([], false), map[], map[], [], [])
  }

  function Signalled<T>(s: State<T>, wake: nat): State<T> {
    if wake in s.waiting then s.(waiting := s.waiting - {wake}, woken := s.woken[wake := s.waiting[wake]]) else s
  }

  function Roused<T>(s: State<T>): State<T> {
    s.(waiting := map[], woken := s.woken + s.waiting)
  }

  function Accept<T>(s: State<T>, item: T, wake: nat): State<T> {
    var (b, ok) := Offer(s.buffer, s.capacity, item);
    if ok then Signalled(s.(buffer := b, accepted := s.accepted + [item]), wake) else s
  }

  function Remove<T>(s: State<T>, wake: nat): State<T> {
    var (b, r) := Poll(s.buffer);
    if r.Some? then Signalled(s.(buffer := b, left := s.left + [Exit.Dequeued(r.value)]), wake) else s
  }

  /** From the top of a blocking call's loop to its return or its wait. */
  function Loop<T>(s: State<T>, thread: nat, want: Want<T>, expired: bool, wake: nat): State<T> {
    var blocked := if want.Putting? then |s.buffer.items| >= s.capacity else s.buffer.items == [];
    if blocked && !s.buffer.closed then
      if expired then s else s.(waiting := s.waiting[thread := want])
    else if want.Putting? then Accept(s, want.item, wake)
    else Remove(s, wake)
  }

  function ClearedAll<T>(items: seq<T>): seq<Exit<T>> {
    seq(|items|, i requires 0 <= i < |items| => Exit.Cleared(items[i]))
  }

  function Step<T>(s: State<T>, a: Action<T>): State<T> {
    match a
    case Enqueue(item, wake) => Accept(s, item, wake)
    case Dequeue(wake) => Remove(s, wake)
    case EnqueueBlocking(t, item, expired, wake) =>
      if s.buffer.closed then s else Loop(s, t, Putting(item), expired, wake)
    case DequeueBlocking(t, expired, wake) => Loop(s, t, Taking, expired, wake)
    case Resume(t, expired, wake) =>
      if t in s.woken then Loop(s.(woken := s.woken - {t}), t, s.woken[t], expired, wake) else s
    case Close => Roused(s.(buffer := Buffer(s.buffer.items, true)))
    case Clear => Roused(s.(buffer := Buffer([], s.buffer.closed), left := s.left + ClearedAll(s.buffer.items)))
  }

  predicate Picks<T>(s: State<T>, wake: nat) {
    s.waiting != map[] ==> wake in s.waiting
  }

  /** A thread is in one call at a time, only woken threads resume, and a Signal picks a parked
      thread whenever there is one. */
  predicate Enabled<T>(s: State<T>, a: Action<T>) {
    match a
    case Enqueue(_, wake) => Picks(s, wake)
    case Dequeue(wake) => Picks(s, wake)
    case EnqueueBlocking(t, _, _, wake) => t !in s.waiting && t !in s.woken && Picks(s, wake)
    case DequeueBlocking(t, _, wake) => t !in s.waiting && t !in s.woken && Picks(s, wake)
    case Resume(t, _, wake) => t in s.woken && Picks(s, wake)
    case Close => true
    case Clear => true
  }

  // ----- the object -----

  /** `waiting` and `woken` are the condition variable's threads; the history is ghost. */
  class Queue<T> {
    const capacity: nat
    var items: seq<T>
    var closed: bool
    var waiting: map<nat, Want<T>>
    var woken: map<nat, Want<T>>
    ghost var accepted: seq<T>
    ghost var left: seq<Exit<T>>

    ghost function Value(): State<T>
      reads this
    {
      State(capacity, Buffer(items, closed), waiting, woken, accepted, left)
    }

    constructor (capacity: nat)
      ensures Value() == Start(capacity)
    {
      this.capacity := capacity;
      items := [];
      closed := false;
      waiting := map[];
      woken := map[];
      accepted := [];
      left := [];
    }

    method Signal(wake: nat)
      modifies this`waiting, this`woken
      ensures Value() == Signalled(old(Value()), wake)
    {
      if wake in waiting {
        woken := woken[wake := waiting[wake]];
        waiting := waiting - {wake};
      }
    }

    method Broadcast()
      modifies this`waiting, this`woken
      ensures Value() == Roused(old(Value()))
    {
      woken := woken + waiting;
      waiting := map[];
    }

    method Enqueue(item: T, wake: nat) returns (ok: bool)
      modifies this
      ensures Value() == Step(old(Value()), Action.Enqueue(item, wake))
      ensures ok <==> !old(closed) && |old(items)| < capacity
      ensures items == (if ok then old(items) + [item] else old(items)) && closed == old(closed)
    {
      if closed {
        return false;
      }
      if |items| >= capacity {
        return false;
      }
      items := items + [item];
      accepted := accepted + [item];
      Signal(wake);
      return true;
    }

    method Dequeue(wake: nat) returns (r: Option<T>)
      modifies this
      ensures Value() == Step(old(Value()), Action.Dequeue(wake))
      ensures r == if old(items) == [] then None else Some(old(items)[0])
      ensures items == (if r.Some? then old(items)[1..] else old(items)) && closed == old(closed)
    {
      if |items| == 0 {
        return None;
      }
      var item := items[0];
      items := items[1..];
      left := left + [Exit.Dequeued(item)];
      Signal(wake);
      return Some(item);
    }

    method PutOrWait(thread: nat, item: T, expired: bool, wake: nat) returns (ok: bool)
      modifies this
      ensures Value() == Loop(old(Value()), thread, Putting(item), expired, wake)
      ensures ok <==> !old(closed) && |old(items)| < capacity
      ensures items == (if ok then old(items) + [item] else old(items)) && closed == old(closed)
    {
      if |items| >= capacity && !closed {
        if !expired {
          waiting := waiting[thread := Putting(item)];
        }
        return false;
      }
      if closed {
        return false;
      }
      items := items + [item];
      accepted := accepted + [item];
      Signal(wake);
      return true;
    }

    method TakeOrWait(thread: nat, expired: bool, wake: nat) returns (r: Option<T>)
      modifies this
      ensures Value() == Loop(old(Value()), thread, Taking, expired, wake)
      ensures r == if old(items) == [] then None else Some(old(items)[0])
      ensures items == (if r.Some? then old(items)[1..] else old(items)) && closed == old(closed)
    {
      if |items| == 0 && !closed {
        if !expired {
          waiting := waiting[thread := Taking];
        }
        return None;
      }
      if |items| == 0 {
        return None;
      }
      var item := items[0];
      items := items[1..];
      left := left + [Exit.Dequeued(item)];
      Signal(wake);
      return Some(item);
    }

    /** The call up to its return or its wait. */
    method EnqueueBlocking(thread: nat, item: T, expired: bool, wake: nat) returns (ok: bool)
      modifies this
      ensures Value() == Step(old(Value()), Action.EnqueueBlocking(thread, item, expired, wake))
      ensures ok <==> !old(closed) && |old(items)| < capacity
      ensures items == (if ok then old(items) + [item] else old(items)) && closed == old(closed)
    {
      if closed {
        return false;
      }
      ok := PutOrWait(thread, item, expired, wake);
    }

    method DequeueBlocking(thread: nat, expired: bool, wake: nat) returns (r: Option<T>)
      modifies this
      ensures Value() == Step(old(Value()), Action.DequeueBlocking(thread, expired, wake))
      ensures r == if old(items) == [] then None else Some(old(items)[0])
      ensures items == (if r.Some? then old(items)[1..] else old(items)) && closed == old(closed)
    {
      r := TakeOrWait(thread, expired, wake);
    }

    /** A woken thread goes round its loop again. */
    method Resume(thread: nat, expired: bool, wake: nat) returns (ok: bool, r: Option<T>)
      requires thread in woken
      modifies this
      ensures Value() == Step(old(Value()), Action.Resume(thread, expired, wake))
      ensures ok <==> old(woken[thread]).Putting? && !old(closed) && |old(items)| < capacity
      ensures r == if old(woken[thread]).Putting? || old(items) == [] then None else Some(old(items)[0])
      ensures closed == old(closed)
      ensures items == if ok then old(items) + [old(woken[thread]).item]
                       else if r.Some? then old(items)[1..] else old(items)
    {
      var want := woken[thread];
      woken := woken - {thread};
      ok, r := false, None;
      match want
      case Putting(item) => ok := PutOrWait(thread, item, expired, wake);
      case Taking => r := TakeOrWait(thread, expired, wake);
    }

    method Close()
      modifies this
      ensures Value() == Step(old(Value()), Action.Close)
      ensures closed && items == old(items) && waiting == map[] && woken == old(woken) + old(waiting)
    {
      closed := true;
      Broadcast();
    }

    method Clear()
      modifies this
      ensures Value() == Step(old(Value()), Action.Clear)
      ensures items == [] && closed == old(closed) && waiting == map[] && woken == old(woken) + old(waiting)
    {
      left := left + ClearedAll(items);
      items := items[..0];
      Broadcast();
    }
  }

  // ----- runs -----

  function Run<T>(s: State<T>, acts: seq<Action<T>>): State<T>
    decreases |acts|
  {
    if acts == [] then s else Run(Step(s, acts[0]), acts[1..])
  }

  /** Every action of the run is one that can happen where it happens. */
  predicate Possible<T>(s: State<T>, acts: seq<Action<T>>)
    decreases |acts|
  {
    acts == [] || (Enabled(s, acts[0]) && Possible(Step(s, acts[0]), acts[1..]))
  }

  // ----- what each call does -----

  /** The item a call is about to put, if it is one that puts. */
  function Putter<T>(s: State<T>, a: Action<T>): Option<T> {
    match a
    case Enqueue(item, _) => Some(item)
    case EnqueueBlocking(_, item, _, _) => Some(item)
    case Resume(t, _, _) => if t in s.woken && s.woken[t].Putting? then Some(s.woken[t].item) else None
    case _ => None
  }

  predicate Takes<T>(s: State<T>, a: Action<T>) {
    a.Dequeue? || a.DequeueBlocking? || (a.Resume? && a.thread in s.woken && s.woken[a.thread].Taking?)
  }

  /** Exactly the calls that find the queue open and not full get their item in, at the end, and
      wake one parked thread if there is any. */
  lemma {:induction false} PutDoes<T>(s: State<T>, a: Action<T>)
    requires Enabled(s, a) && Putter(s, a).Some?
    ensures var s' := Step(s, a);
            && s'.capacity == s.capacity && s'.buffer.closed == s.buffer.closed && s'.left == s.left
            && if !s.buffer.closed && |s.buffer.items| < s.capacity then
                 && s'.buffer.items == s.buffer.items + [Putter(s, a).value]
                 && s'.accepted == s.accepted + [Putter(s, a).value]
                 && (s.waiting != map[] ==> s'.waiting == s.waiting - {a.wake} && a.wake in s'.woken)
               else s'.buffer.items == s.buffer.items && s'.accepted == s.accepted
  {
  }

  /** A call that takes gets the oldest item, closed or not, and wakes one parked thread. */
  lemma {:induction false} TakeDoes<T>(s: State<T>, a: Action<T>)
    requires Enabled(s, a) && Takes(s, a)
    ensures var s' := Step(s, a);
            && s'.capacity == s.capacity && s'.buffer.closed == s.buffer.closed && s'.accepted == s.accepted
            && if s.buffer.items != [] then
                 && s'.buffer.items == s.buffer.items[1..]
                 && s'.left == s.left + [Exit.Dequeued(s.buffer.items[0])]
                 && (s.waiting != map[] ==> s'.waiting == s.waiting - {a.wake} && a.wake in s'.woken)
               else s'.buffer.items == [] && s'.left == s.left
  {
  }

  /** A thread's blocking call, or next turn of it, ends in a wait exactly when it can neither go on
      nor give up: the queue is open, full for a putter or empty for a taker, and no deadline has
      passed. Otherwise the call is over. */
  lemma {:induction false} WaitDoes<T>(s: State<T>, a: Action<T>)
    requires Enabled(s, a) && (a.EnqueueBlocking? || a.DequeueBlocking? || a.Resume?)
    requires forall t :: t in s.waiting ==> t !in s.woken
    ensures var s' := Step(s, a);
            && a.thread !in s'.woken
            && (a.thread in s'.waiting <==>
                  && !s.buffer.closed && !a.expired
                  && if Takes(s, a) then s.buffer.items == [] else |s.buffer.items| >= s.capacity)
            && (a.thread in s'.waiting ==>
                  s'.waiting[a.thread] == if Takes(s, a) then Taking else Putting(Putter(s, a).value))
  {
  }

  /** Nobody else is disturbed: of the other threads only the one that a Signal picks changes its place,
      from parked to woken, and it keeps what it is there for. */
  lemma {:induction false} OthersUndisturbed<T>(s: State<T>, a: Action<T>, t: nat)
    requires Enabled(s, a) && !a.Close? && !a.Clear?
    requires (a.EnqueueBlocking? || a.DequeueBlocking? || a.Resume?) ==> t != a.thread
    requires t !in s.waiting || t !in s.woken
    ensures var s' := Step(s, a);
            && (t in s.woken ==> t in s'.woken && t !in s'.waiting && s'.woken[t] == s.woken[t])
            && (t in s.waiting && t != a.wake ==> t in s'.waiting && t !in s'.woken && s'.waiting[t] == s.waiting[t])
            && (t in s.waiting && t in s'.woken ==> t !in s'.waiting && s'.woken[t] == s.waiting[t])
            && (t !in s.waiting && t !in s.woken ==> t !in s'.waiting && t !in s'.woken)
  {
  }

  /** Closing and clearing wake everybody. */
  lemma {:induction false} CloseDoes<T>(s: State<T>)
    ensures var s' := Step(s, Action<T>.Close);
            && s'.buffer == Buffer(s.buffer.items, true) && s'.accepted == s.accepted && s'.left == s.left
            && s'.capacity == s.capacity && s'.waiting == map[] && s'.woken == s.woken + s.waiting
  {
  }

  lemma {:induction false} ClearDoes<T>(s: State<T>)
    ensures var s' := Step(s, Action<T>.Clear);
            && s'.buffer == Buffer([], s.buffer.closed) && s'.accepted == s.accepted
            && |s'.left| == |s.left| + |s.buffer.items| && s.left == s'.left[..|s.left|]
            && (forall i :: 0 <= i < |s.buffer.items| ==> s'.left[|s.left| + i] == Exit.Cleared(s.buffer.items[i]))
            && s'.capacity == s.capacity && s'.waiting == map[] && s'.woken == s.woken + s.waiting
  {
  }

  // ----- safety -----

  function Items<T>(left: seq<Exit<T>>): seq<T> {
    seq(|left|, i requires 0 <= i < |left| => left[i].item)
  }

  ghost predicate Safe<T>(s: State<T>) {
    && |s.buffer.items| <= s.capacity
    && s.accepted == Items(s.left) + s.buffer.items
    && (forall t :: t in s.waiting ==> t !in s.woken)
    && (s.buffer.closed ==> s.waiting == map[])
  }

  lemma {:induction false} ItemsAppend<T>(left: seq<Exit<T>>, more: seq<Exit<T>>)
    ensures Items(left + more) == Items(left) + Items(more)
  {
  }

  lemma {:induction false} AcceptSafe<T>(s: State<T>, item: T, wake: nat)
    requires Safe(s)
    ensures Safe(Accept(s, item, wake))
  {
  }

  lemma {:induction false} RemoveSafe<T>(s: State<T>, wake: nat)
    requires Safe(s)
    ensures Safe(Remove(s, wake))
  {
    if s.buffer.items != [] {
      ItemsAppend(s.left, [Exit.Dequeued(s.buffer.items[0])]);
      assert Items([Exit.Dequeued(s.buffer.items[0])]) == [s.buffer.items[0]];
      assert s.buffer.items == [s.buffer.items[0]] + s.buffer.items[1..];
    }
  }

  lemma {:induction false} StepSafe<T>(s: State<T>, a: Action<T>)
    requires Safe(s) && Enabled(s, a)
    ensures Safe(Step(s, a)) && Step(s, a).capacity == s.capacity
  {
    match a
    case Enqueue(item, wake) => AcceptSafe(s, item, wake);
    case Dequeue(wake) => RemoveSafe(s, wake);
    case EnqueueBlocking(t, item, _, wake) => AcceptSafe(s, item, wake);
    case DequeueBlocking(t, _, wake) => RemoveSafe(s, wake);
    case Resume(t, _, wake) =>
      var s' := s.(woken := s.woken - {t});
      if s.woken[t].Putting? {
        AcceptSafe(s', s.woken[t].item, wake);
      } else {
        RemoveSafe(s', wake);
      }
    case Close =>
    case Clear =>
      ItemsAppend(s.left, ClearedAll(s.buffer.items));
      assert Items(ClearedAll(s.buffer.items)) == s.buffer.items;
  }

  lemma {:induction false} RunSafe<T>(s: State<T>, acts: seq<Action<T>>)
    requires Safe(s) && Possible(s, acts)
    ensures Safe(Run(s, acts)) && Run(s, acts).capacity == s.capacity
    decreases |acts|
  {
    if acts != [] {
      StepSafe(s, acts[0]);
      RunSafe(Step(s, acts[0]), acts[1..]);
    }
  }

  /** In every interleaving of any calls by any threads: the size never exceeds the capacity; the
      accepted items are, in order, those dequeued or cleared and then those still queued, each
      once; and once the queue is closed no thread is parked. */
  lemma {:induction false} EveryInterleavingIsSafe<T>(capacity: nat, acts: seq<Action<T>>)
    requires Possible(Start(capacity), acts)
    ensures var s := Run(Start(capacity), acts);
            && |s.buffer.items| <= capacity
            && |s.accepted| == |s.left| + |s.buffer.items|
            && (forall i :: 0 <= i < |s.left| ==> s.left[i].item == s.accepted[i])
            && (forall i :: 0 <= i < |s.buffer.items| ==> s.buffer.items[i] == s.accepted[|s.left| + i])
            && (s.buffer.closed ==> s.waiting == map[])
  {
    RunSafe(Start(capacity), acts);
  }

  lemma {:induction false} StepHistoryGrows<T>(s: State<T>, a: Action<T>)
    ensures s.accepted <= Step(s, a).accepted && s.left <= Step(s, a).left
  {
  }

  /** What left stays left, in the same order, whatever happens later. */
  lemma {:induction false} HistoryGrows<T>(s: State<T>, acts: seq<Action<T>>)
    ensures s.accepted <= Run(s, acts).accepted && s.left <= Run(s, acts).left
    decreases |acts|
  {
    if acts != [] {
      StepHistoryGrows(s, acts[0]);
      HistoryGrows(Step(s, acts[0]), acts[1..]);
    }
  }

  lemma {:induction false} ClosedStep<T>(s: State<T>, a: Action<T>)
    requires s.buffer.closed && s.waiting == map[]
    ensures var s' := Step(s, a);
            && s'.buffer.closed && s'.waiting == map[] && s'.accepted == s.accepted
            && |s'.buffer.items| <= |s.buffer.items|
  {
  }

  /** After `Close`: nothing more is accepted, and no thread parks again, in any continuation. */
  lemma {:induction false} ClosedForGood<T>(s: State<T>, acts: seq<Action<T>>)
    requires s.buffer.closed && s.waiting == map[]
    ensures var s' := Run(s, acts);
            && s'.buffer.closed && s'.waiting == map[] && s'.accepted == s.accepted
            && |s'.buffer.items| <= |s.buffer.items|
    decreases |acts|
  {
    if acts != [] {
      ClosedStep(s, acts[0]);
      ClosedForGood(Step(s, acts[0]), acts[1..]);
    }
  }

  lemma {:induction false} RunConcat<T>(s: State<T>, acts: seq<Action<T>>, more: seq<Action<T>>)
    ensures Run(s, acts + more) == Run(Run(s, acts), more)
    decreases |acts|
  {
    if acts == [] {
      assert acts + more == more;
    } else {
      assert (acts + more)[0] == acts[0] && (acts + more)[1..] == acts[1..] + more;
      RunConcat(Step(s, acts[0]), acts[1..], more);
    }
  }

  /** Of the whole run: from any Close in it on, nothing is accepted, nobody is parked, and what is
      still queued only gets less. */
  lemma {:induction false} NothingAfterClose<T>(capacity: nat, acts: seq<Action<T>>, i: nat)
    requires i < |acts| && acts[i].Close?
    ensures var before, s := Run(Start(capacity), acts[..i]), Run(Start(capacity), acts);
            && s.buffer.closed && s.waiting == map[]
            && s.accepted == before.accepted && |s.buffer.items| <= |before.buffer.items|
  {
    var before := Run(Start(capacity), acts[..i]);
    RunConcat(Start(capacity), acts[..i], acts[i..]);
    assert acts == acts[..i] + acts[i..];
    CloseDoes(before);
    ClosedForGood(Step(before, acts[i]), acts[i..][1..]);
  }

  lemma {:induction false} StaysOpen<T>(s: State<T>, acts: seq<Action<T>>)
    requires !s.buffer.closed && forall i :: 0 <= i < |acts| ==> !acts[i].Close?
    ensures !Run(s, acts).buffer.closed
    decreases |acts|
  {
    if acts != [] { StaysOpen(Step(s, acts[0]), acts[1..]); }
  }

  /** A queue is closed exactly when the run so far holds a Close. */
  lemma {:induction false} ClosedIffClose<T>(capacity: nat, acts: seq<Action<T>>)
    ensures Run(Start(capacity), acts).buffer.closed <==> exists i :: 0 <= i < |acts| && acts[i].Close?
  {
    if i :| 0 <= i < |acts| && acts[i].Close? {
      NothingAfterClose(capacity, acts, i);
    } else {
      StaysOpen(Start(capacity), acts);
    }
  }

  /** And every thread inside a blocking call when the queue is closed gets out at its next step. */
  lemma {:induction false} ClosedCallsReturn<T>(s: State<T>, t: nat, expired: bool, wake: nat)
    requires s.buffer.closed && s.waiting == map[] && t in s.woken
    ensures var s' := Step(s, Resume(t, expired, wake)); t !in s'.waiting && t !in s'.woken
  {
  }

  // ----- lost wake-ups -----

  /** A parked thread could go on, yet nobody has been woken. */
  predicate Stuck<T>(s: State<T>) {
    && s.woken == map[]
    && exists t :: t in s.waiting
         && if s.waiting[t].Putting? then |s.buffer.items| < s.capacity else s.buffer.items != []
  }

  /** The waiting threads are all of one kind. */
  ghost predicate AllWant<T>(m: map<nat, Want<T>>, putting: bool) {
    forall t :: t in m ==> m[t].Putting? == putting
  }

  predicate Parks<T>(a: Action<T>, putting: bool) {
    if putting then a.EnqueueBlocking? else a.DequeueBlocking?
  }

  /** How many threads of the kind could go on now. */
  function Room<T>(s: State<T>, putting: bool): int {
    if putting then s.capacity - |s.buffer.items| else |s.buffer.items|
  }

  /** While a thread is parked, at most `slack` more threads could go on than have been woken. */
  ghost predicate Covered<T>(s: State<T>, putting: bool, slack: int) {
    && Safe(s) && AllWant(s.waiting, putting) && AllWant(s.woken, putting)
    && (s.waiting != map[] ==> Room(s, putting) <= |s.woken| + slack)
  }

  lemma {:induction false} SignalCovers<T>(s: State<T>, wake: nat, putting: bool)
    requires Covered(s, putting, 1) && Picks(s, wake)
    ensures Covered(Signalled(s, wake), putting, 0)
  {
  }

  lemma {:induction false} AcceptCovered<T>(s: State<T>, item: T, wake: nat, putting: bool, slack: int)
    requires Covered(s, putting, slack) && Picks(s, wake) && 0 <= slack <= 1 && (slack == 1 ==> putting)
    ensures Covered(Accept(s, item, wake), putting, 0)
  {
    var (b, ok) := Offer(s.buffer, s.capacity, item);
    if ok {
      var s' := s.(buffer := b, accepted := s.accepted + [item]);
      AcceptSafe(s, item, wake);
      SignalCovers(s', wake, putting);
    }
  }

  lemma {:induction false} RemoveCovered<T>(s: State<T>, wake: nat, putting: bool, slack: int)
    requires Covered(s, putting, slack) && Picks(s, wake) && 0 <= slack <= 1 && (slack == 1 ==> !putting)
    ensures Covered(Remove(s, wake), putting, 0)
  {
    var (b, r) := Poll(s.buffer);
    if r.Some? {
      var s' := s.(buffer := b, left := s.left + [Exit.Dequeued(r.value)]);
      RemoveSafe(s.(waiting := map[], woken := map[]), wake);
      SignalCovers(s', wake, putting);
    }
  }

  lemma {:induction false} LoopCovered<T>(s: State<T>, t: nat, want: Want<T>, expired: bool, wake: nat, slack: int)
    requires var putting := want.Putting?;
             Covered(s, putting, slack) && Picks(s, wake) && 0 <= slack <= 1 && t !in s.woken
    ensures Covered(Loop(s, t, want, expired, wake), want.Putting?, 0)
  {
    if want.Putting? {
      AcceptCovered(s, want.item, wake, true, slack);
    } else {
      RemoveCovered(s, wake, false, slack);
    }
  }

  lemma {:induction false} StepCovered<T>(s: State<T>, a: Action<T>, putting: bool)
    requires Covered(s, putting, 0) && Enabled(s, a) && !Parks(a, !putting)
    ensures Covered(Step(s, a), putting, 0)
  {
    match a
    case Enqueue(item, wake) => AcceptCovered(s, item, wake, putting, 0);
    case Dequeue(wake) => RemoveCovered(s, wake, putting, 0);
    case EnqueueBlocking(t, item, expired, wake) => LoopCovered(s, t, Putting(item), expired, wake, 0);
    case DequeueBlocking(t, expired, wake) => LoopCovered(s, t, Taking, expired, wake, 0);
    case Resume(t, expired, wake) =>
      var s' := s.(woken := s.woken - {t});
      assert |s'.woken| == |s.woken| - 1 by { assert s'.woken.Keys == s.woken.Keys - {t}; }
      LoopCovered(s', t, s.woken[t], expired, wake, 1);
    case Close => StepSafe(s, a);
    case Clear => StepSafe(s, a);
  }

  lemma {:induction false} RunCovered<T>(s: State<T>, acts: seq<Action<T>>, putting: bool)
    requires Covered(s, putting, 0) && Possible(s, acts) && forall i :: 0 <= i < |acts| ==> !Parks(acts[i], !putting)
    ensures Covered(Run(s, acts), putting, 0)
    decreases |acts|
  {
    if acts != [] {
      StepCovered(s, acts[0], putting);
      RunCovered(Step(s, acts[0]), acts[1..], putting);
    }
  }

  /** No wake-up is ever lost while only one kind of blocking call is in use. */
  lemma {:induction false} OneKindNeverStuck<T>(capacity: nat, acts: seq<Action<T>>, putting: bool)
    requires Possible(Start(capacity), acts) && forall i :: 0 <= i < |acts| ==> !Parks(acts[i], !putting)
    ensures !Stuck(Run(Start(capacity), acts))
  {
    RunCovered(Start(capacity), acts, putting);
  }

  /** What some possible run leads to. */
  ghost predicate Reaches<T(!new)>(s: State<T>, s': State<T>) {
    exists acts :: Possible(s, acts) && Run(s, acts) == s'
  }

  lemma {:induction false} RunAppend<T>(s: State<T>, acts: seq<Action<T>>, a: Action<T>)
    requires Possible(s, acts) && Enabled(Run(s, acts), a)
    ensures Possible(s, acts + [a]) && Run(s, acts + [a]) == Step(Run(s, acts), a)
    decreases |acts|
  {
    if acts == [] {
      assert acts + [a] == [a] && [a][1..] == [];
    } else {
      RunAppend(Step(s, acts[0]), acts[1..], a);
      assert (acts + [a])[0] == acts[0] && (acts + [a])[1..] == acts[1..] + [a];
    }
  }

  lemma {:induction false} ReachesNext<T(!new)>(s: State<T>, s': State<T>, a: Action<T>)
    requires Reaches(s, s') && Enabled(s', a)
    ensures Reaches(s, Step(s', a))
  {
    var acts :| Possible(s, acts) && Run(s, acts) == s';
    RunAppend(s, acts, a);
  }

  /** Consumers lo..hi-1 are parked, perhaps with producer 2 * capacity; consumers from..to-1 have
      been woken; n items are queued. */
  ghost predicate Scene<T>(s: State<T>, n: nat, lo: nat, hi: nat, from: nat, to: nat, producer: bool) {
    && |s.buffer.items| == n && !s.buffer.closed && hi <= 2 * s.capacity
    && (forall t :: t in s.waiting <==> lo <= t < hi || (producer && t == 2 * s.capacity))
    && (forall t :: t in s.waiting && t < hi ==> s.waiting[t] == Taking)
    && (producer ==> s.waiting[2 * s.capacity].Putting?)
    && (forall t :: t in s.woken <==> from <= t < to)
    && (forall t :: t in s.woken ==> s.woken[t] == Taking)
  }

  lemma {:induction false} ConsumersPark<T(!new)>(capacity: nat, k: nat) returns (s: State<T>)
    requires k <= 2 * capacity
    ensures Reaches(Start(capacity), s) && s.capacity == capacity && Scene(s, 0, 0, k, 0, 0, false)
  {
    if k == 0 {
      s := Start(capacity);
      assert Possible(s, []) && Run(s, []) == s;
    } else {
      var s0 := ConsumersPark<T>(capacity, k - 1);
      var a := Action<T>.DequeueBlocking(k - 1, false, 0);
      ReachesNext(Start(capacity), s0, a);
      s := Step(s0, a);
    }
  }

  /** Each item queued wakes the consumer that has waited longest. */
  lemma {:induction false} ItemsWake<T(!new)>(capacity: nat, x: T, k: nat) returns (s: State<T>)
    requires k <= capacity
    ensures Reaches(Start(capacity), s) && s.capacity == capacity
    ensures Scene(s, k, k, 2 * capacity, 0, k, false)
  {
    if k == 0 {
      s := ConsumersPark(capacity, 2 * capacity);
    } else {
      var s0 := ItemsWake(capacity, x, k - 1);
      var a := Action.Enqueue(x, k - 1);
      ReachesNext(Start(capacity), s0, a);
      s := Step(s0, a);
    }
  }

  lemma {:induction false} ProducerParks<T(!new)>(capacity: nat, x: T) returns (s: State<T>)
    requires capacity > 0
    ensures Reaches(Start(capacity), s) && s.capacity == capacity
    ensures Scene(s, capacity, capacity, 2 * capacity, 0, capacity, true)
  {
    var s0 := ItemsWake(capacity, x, capacity);
    var a := Action.EnqueueBlocking(2 * capacity, x, false, capacity);
    assert capacity in s0.waiting;
    ReachesNext(Start(capacity), s0, a);
    s := Step(s0, a);
  }

  /** Each item taken wakes not the producer but the next consumer. */
  lemma {:induction false} WrongKindWoken<T(!new)>(capacity: nat, x: T, k: nat) returns (s: State<T>)
    requires 0 < capacity && k <= capacity
    ensures Reaches(Start(capacity), s) && s.capacity == capacity
    ensures Scene(s, capacity - k, capacity + k, 2 * capacity, k, capacity + k, true)
  {
    if k == 0 {
      s := ProducerParks(capacity, x);
    } else {
      var s0 := WrongKindWoken(capacity, x, k - 1);
      var a := Action<T>.Resume(k - 1, false, capacity + k - 1);
      ReachesNext(Start(capacity), s0, a);
      s := Step(s0, a);
    }
  }

  /** The consumers woken last find nothing and park again. */
  lemma {:induction false} ConsumersParkAgain<T(!new)>(capacity: nat, x: T, k: nat) returns (s: State<T>)
    requires 0 < capacity && k <= capacity
    ensures Reaches(Start(capacity), s) && s.capacity == capacity
    ensures Scene(s, 0, capacity, capacity + k, capacity + k, 2 * capacity, true)
  {
    if k == 0 {
      s := WrongKindWoken(capacity, x, capacity);
    } else {
      var s0 := ConsumersParkAgain(capacity, x, k - 1);
      var a := Action<T>.Resume(capacity + k - 1, false, 2 * capacity);
      assert 2 * capacity in s0.waiting;
      ReachesNext(Start(capacity), s0, a);
      s := Step(s0, a);
    }
  }

  /** The one condition variable is shared: with producers and consumers parked together, a Signal
      can wake the wrong kind. Whatever the capacity, some run leaves a producer parked beside an
      empty buffer with no thread left to run, although each Signal woke the longest waiting. */
  lemma {:induction false} SharedSignalGetsLost<T(!new)>(capacity: nat, x: T)
    requires capacity > 0
    ensures exists acts: seq<Action<T>> :: Possible(Start(capacity), acts) && Stuck(Run(Start(capacity), acts))
  {
    var s := ConsumersParkAgain(capacity, x, capacity);
    assert s.woken == map[] && 2 * capacity in s.waiting;
    assert Stuck(s);
  }

  predicate Uses<T>(acts: seq<Action<T>>, putters: bool, takers: bool) {
    forall i :: 0 <= i < |acts| ==> (Parks(acts[i], true) ==> putters) && (Parks(acts[i], false) ==> takers)
  }

  /** No possible run that uses only the given kinds of blocking call gets stuck. */
  ghost predicate NeverStuck<T(!new)>(capacity: nat, putters: bool, takers: bool) {
    forall acts: seq<Action<T>> ::
      Possible(Start(capacity), acts) && Uses(acts, putters, takers) ==> !Stuck(Run(Start(capacity), acts))
  }

  lemma {:induction false} NoCapacityNeverStuck<T>(acts: seq<Action<T>>)
    requires Possible(Start(0), acts)
    ensures !Stuck(Run(Start(0), acts))
  {
    RunSafe(Start(0), acts);
  }

  /** Exactly when no wake-up is ever lost: while only producers or only consumers make blocking
      calls, or when nothing can ever be queued. */
  lemma {:induction false} NeverStuckIff<T(!new)>(capacity: nat, putters: bool, takers: bool, x: T)
    ensures NeverStuck<T>(capacity, putters, takers) <==> capacity == 0 || !putters || !takers
  {
    if capacity > 0 && putters && takers {
      SharedSignalGetsLost(capacity, x);
    } else {
      forall acts: seq<Action<T>> | Possible(Start(capacity), acts) && Uses(acts, putters, takers)
        ensures !Stuck(Run(Start(capacity), acts))
      {
        if capacity == 0 {
          NoCapacityNeverStuck(acts);
        } else {
          OneKindNeverStuck(capacity, acts, putters);
        }
      }
    }
  }
}
