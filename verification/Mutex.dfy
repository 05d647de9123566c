/** `WaitQueue`: waiters in the order in which they are woken. */
module WaitQueues {
  type Thread = nat

  class Waiter {
    var isWokenUp: bool
    const exclusive: bool
    const thread: Thread

    constructor (thread: Thread, exclusive: bool)
      ensures !isWokenUp && this.thread == thread && this.exclusive == exclusive
    {
      this.isWokenUp, this.thread, this.exclusive := false, thread, exclusive;
    }

    /** Raises the flag; `scheduled` says whether the sleeper was put back on the run queue. */
    method WakeUp() returns (scheduled: bool)
      modifies this
      ensures isWokenUp && scheduled == !old(isWokenUp)
    {
      scheduled := !isWokenUp;
      if scheduled { isWokenUp := true; }
    }
  }

  /** Shared waiters come before exclusive ones, and nobody is queued twice. */
  ghost predicate Ordered(ws: seq<Waiter>) {
    && (forall i, j | 0 <= i < j < |ws| :: ws[i] != ws[j])
    && (forall i, j | 0 <= i < j < |ws| :: ws[i].exclusive ==> ws[j].exclusive)
  }

  class WaitQueue {
    var waiters: seq<Waiter>

    ghost predicate Valid()
      reads this
    {
      Ordered(waiters)
    }

    constructor ()
      ensures Valid() && waiters == []
    {
      waiters := [];
    }

    method Enqueue(w: Waiter)
      requires Valid() && w !in waiters
      modifies this
      ensures Valid()
      ensures waiters == if w.exclusive then old(waiters) + [w] else [w] + old(waiters)
    {
      waiters := if w.exclusive then waiters + [w] else [w] + waiters;
    }

    /** Removes exactly `w`, keeping the order of the others. */
    method Dequeue(w: Waiter)
      requires Valid()
      modifies this
      ensures Valid()
      ensures w !in old(waiters) ==> waiters == old(waiters)
      ensures forall k | 0 <= k < |old(waiters)| && old(waiters)[k] == w ::
                waiters == old(waiters)[..k] + old(waiters)[k + 1..]
    {
      var kept: seq<Waiter> := [];
      ghost var at := -1;
      for i := 0 to |waiters|
        invariant at == -1 || 0 <= at < i
        invariant at >= 0 ==> waiters[at] == w
        invariant kept == if at == -1 then waiters[..i] else waiters[..at] + waiters[at + 1..i]
        invariant at == -1 ==> w !in waiters[..i]
      {
        if waiters[i] != w {
          kept := kept + [waiters[i]];
        } else {
          at := i;
        }
      }
      assert waiters[..|waiters|] == waiters;
      if at >= 0 { assert waiters[at + 1..|waiters|] == waiters[at + 1..]; }
      waiters := kept;
    }

    /** Flags the front waiter, and leaves it in the queue. */
    method WakeOne()
      requires Valid()
      modifies waiters[..if waiters == [] then 0 else 1]
      ensures waiters != [] ==> waiters[0].isWokenUp
      ensures forall i | 1 <= i < |waiters| :: waiters[i].isWokenUp == old(waiters[i].isWokenUp)
    {
      if waiters != [] {
        var _ := waiters[0].WakeUp();
      }
    }

    /** Flags every shared waiter and exactly the first exclusive one. */
    method WakeAll()
      requires Valid()
      modifies waiters
      ensures forall i | 0 <= i < |waiters| && !waiters[i].exclusive :: waiters[i].isWokenUp
      ensures forall i | 0 <= i < |waiters| && waiters[i].exclusive ::
                waiters[i].isWokenUp <==>
                old(waiters[i].isWokenUp) || (forall j | 0 <= j < i :: !waiters[j].exclusive)
    {
      var i := 0;
      while i < |waiters|
        invariant 0 <= i <= |waiters|
        invariant forall j | 0 <= j < i :: !waiters[j].exclusive && waiters[j].isWokenUp
        invariant forall j | i <= j < |waiters| :: waiters[j].isWokenUp == old(waiters[j].isWokenUp)
      {
        var _ := waiters[i].WakeUp();
        if waiters[i].exclusive { break; }
        i := i + 1;
      }
    }
  }
}

/** The sleep/wake protocol of `Mutex` over `WaitQueue`.

    `lock` tries once, then puts a fresh waiter at the front of the queue and
    alternates between testing the lock and sleeping until its flag is raised.
    `unlock` stores `false` and then raises the flag of the front waiter without
    removing it. Each atomic access, and each access made under the queue's own
    spin lock, is one step; steps of any number of threads interleave freely. */
module SleepingMutex {
  import opened WaitQueues

  datatype Pc =
    | Idle
    | NewWaiter   // the first `try_lock` of `do_wait` failed, the waiter is not queued yet
    | Retest      // queued, about to test the lock
    | Asleep      // in `Waiter::wait`, polling the flag
    | Clearing    // saw the flag, about to lower it
    | Dequeuing   // has the lock, about to leave the queue
    | Holding     // has the guard
    | Waking      // has released the lock, about to call `wake_one`

  /** A thread has one waiter at a time, so waiters are named by their threads. */
  datatype State = State(lock: bool, queue: seq<Thread>, woken: set<Thread>, pc: map<Thread, Pc>)

  datatype Op = TryLock | FirstTry | Enqueue | Test | PollFlag | ClearFlag | Dequeue | Release | WakeOne

  datatype Event = Event(thread: Thread, op: Op)

  function At(s: State, t: Thread): Pc {
    if t in s.pc then s.pc[t] else Idle
  }

  predicate Enabled(s: State, e: Event) {
    var p := At(s, e.thread);
    match e.op
    case TryLock | FirstTry => p.Idle?
    case Enqueue => p.NewWaiter?
    case Test => p.Retest?
    case PollFlag => p.Asleep?
    case ClearFlag => p.Clearing?
    case Dequeue => p.Dequeuing?
    case Release => p.Holding?
    case WakeOne => p.Waking?
  }

  /** `retain(|w| !ptr_eq(w, t))`. */
  function Without(q: seq<Thread>, t: Thread): seq<Thread> {
    if q == [] then [] else (if q[0] == t then [] else [q[0]]) + Without(q[1..], t)
  }

  function Goto(s: State, t: Thread, p: Pc): State { s.(pc := s.pc[t := p]) }

  function Step(s: State, e: Event): State {
    var t := e.thread;
    match e.op
    case TryLock => if s.lock then s else Goto(s.(lock := true), t, Holding)
    case FirstTry => if s.lock then Goto(s, t, NewWaiter) else Goto(s.(lock := true), t, Holding)
    case Enqueue => Goto(s.(queue := [t] + s.queue, woken := s.woken - {t}), t, Retest)
    case Test => if s.lock then Goto(s, t, Asleep) else Goto(s.(lock := true), t, Dequeuing)
    case PollFlag => if t in s.woken then Goto(s, t, Clearing) else s
    case ClearFlag => Goto(s.(woken := s.woken - {t}), t, Retest)
    case Dequeue => Goto(s.(queue := Without(s.queue, t)), t, Holding)
    case Release => Goto(s.(lock := false), t, Waking)
    case WakeOne => Goto(if s.queue == [] then s else s.(woken := s.woken + {s.queue[0]}), t, Idle)
  }

  predicate HasLock(p: Pc) { p.Dequeuing? || p.Holding? }

  predicate Queued(p: Pc) { p.Retest? || p.Asleep? || p.Clearing? || p.Dequeuing? }

  /** Someone who will wake a sleeper, or test the lock, without being woken again. */
  predicate WillAct(s: State, t: Thread) {
    At(s, t).Waking? || (t in s.queue && (t in s.woken || At(s, t).Retest? || At(s, t).Clearing?))
  }

  ghost predicate MutualExclusion(s: State) {
    && (forall t, u | HasLock(At(s, t)) && HasLock(At(s, u)) :: t == u)
    && (s.lock <==> exists t :: HasLock(At(s, t)))
  }

  ghost predicate Distinct(q: seq<Thread>) {
    forall i, j | 0 <= i < j < |q| :: q[i] != q[j]
  }

  ghost predicate QueueMatches(s: State) {
    && (forall t :: t in s.queue <==> Queued(At(s, t)))
    && Distinct(s.queue)
  }

  ghost predicate NoLostWakeup(s: State) {
    !s.lock && s.queue != [] ==> exists t :: WillAct(s, t)
  }

  ghost predicate Inv(s: State) {
    MutualExclusion(s) && QueueMatches(s) && NoLostWakeup(s)
  }

  lemma {:induction false} WithoutMembers(q: seq<Thread>, t: Thread)
    ensures forall u :: u in Without(q, t) <==> u in q && u != t
  {
    if q != [] {
      WithoutMembers(q[1..], t);
      assert q == [q[0]] + q[1..];
    }
  }

  lemma {:induction false} WithoutDistinct(q: seq<Thread>, t: Thread)
    requires Distinct(q)
    ensures Distinct(Without(q, t))
  {
    if q != [] {
      var tail := q[1..];
      WithoutDistinct(tail, t);
      WithoutMembers(tail, t);
      ConsDistinct(q[0], Without(tail, t));
    }
  }

  lemma ConsDistinct(t: Thread, q: seq<Thread>)
    requires Distinct(q)
    ensures t !in q ==> Distinct([t] + q)
  {
    var r := [t] + q;
    forall i, j | 0 <= i < j < |r| && t !in q ensures r[i] != r[j] {
      assert r[j] == q[j - 1];
    }
  }

  lemma StepKeepsExclusion(s: State, e: Event)
    requires Inv(s) && Enabled(s, e)
    ensures MutualExclusion(Step(s, e))
  {
    var s', t := Step(s, e), e.thread;
    assert forall u | u != t :: At(s', u) == At(s, u);
    if s'.lock {
      if HasLock(At(s', t)) {
        if s.lock { assert HasLock(At(s, t)); }
      } else {
        assert s.lock;
        var o :| HasLock(At(s, o));
        assert o != t && HasLock(At(s', o));
      }
    } else if e.op.Release? {
      assert HasLock(At(s, t));
    }
  }

  lemma EnqueueKeepsQueue(s: State, t: Thread)
    requires QueueMatches(s) && At(s, t).NewWaiter?
    ensures QueueMatches(Step(s, Event(t, Enqueue)))
  {
    var s' := Step(s, Event(t, Enqueue));
    ConsDistinct(t, s.queue);
    forall u ensures u in s'.queue <==> Queued(At(s', u)) { assert u in s.queue <==> Queued(At(s, u)); }
  }

  lemma DequeueKeepsQueue(s: State, t: Thread)
    requires QueueMatches(s) && At(s, t).Dequeuing?
    ensures QueueMatches(Step(s, Event(t, Dequeue)))
  {
    var s' := Step(s, Event(t, Dequeue));
    WithoutMembers(s.queue, t);
    WithoutDistinct(s.queue, t);
    forall u ensures u in s'.queue <==> Queued(At(s', u)) { assert u in s.queue <==> Queued(At(s, u)); }
  }

  lemma StepKeepsQueue(s: State, e: Event)
    requires QueueMatches(s) && Enabled(s, e)
    ensures QueueMatches(Step(s, e))
  {
    if e.op.Dequeue? {
      DequeueKeepsQueue(s, e.thread);
    } else if e.op.Enqueue? {
      EnqueueKeepsQueue(s, e.thread);
    } else {
      var s' := Step(s, e);
      assert s'.queue == s.queue;
      forall u ensures u in s'.queue <==> Queued(At(s', u)) { assert u in s.queue <==> Queued(At(s, u)); }
    }
  }

  lemma StepKeepsWakeup(s: State, e: Event)
    requires Inv(s) && Enabled(s, e)
    requires QueueMatches(Step(s, e))
    ensures NoLostWakeup(Step(s, e))
  {
    var s', t := Step(s, e), e.thread;
    if !s'.lock && s'.queue != [] {
      match e.op {
        case TryLock | FirstTry | Test =>
        case Enqueue => assert WillAct(s', t);
        case PollFlag =>
          var u :| WillAct(s, u);
          assert WillAct(s', u);
        case ClearFlag => assert WillAct(s', t);
        case Dequeue => assert HasLock(At(s, t));
        case Release => assert WillAct(s', t);
        case WakeOne => assert WillAct(s', s'.queue[0]);
      }
    }
  }

  lemma StepKeepsInv(s: State, e: Event)
    requires Inv(s) && Enabled(s, e)
    ensures Inv(Step(s, e))
  {
    StepKeepsExclusion(s, e);
    StepKeepsQueue(s, e);
    StepKeepsWakeup(s, e);
  }

  /** The three tests of the lock. A free lock is taken by whoever tests it; a held one stays with its owner, and the
      queue and the flags stay as they are. `try_lock` then leaves no trace, and the tests of `lock` only move on to
      queueing and to sleeping. */
  lemma TestingTheLock(s: State, t: Thread, op: Op)
    requires Inv(s) && Enabled(s, Event(t, op)) && (op.TryLock? || op.FirstTry? || op.Test?)
    ensures var s' := Step(s, Event(t, op));
            && s'.lock && s'.queue == s.queue && s'.woken == s.woken
            && (HasLock(At(s', t)) <==> !s.lock)
            && (forall u | u != t :: At(s', u) == At(s, u))
            && (s.lock ==> forall u :: HasLock(At(s', u)) <==> HasLock(At(s, u)))
            && (s.lock && op.TryLock? ==> s' == s)
            && (s.lock && op.FirstTry? ==> At(s', t).NewWaiter?)
            && (s.lock && op.Test? ==> At(s', t).Asleep?)
  {
    var s' := Step(s, Event(t, op));
    StepKeepsInv(s, Event(t, op));
    if s.lock {
      var o :| HasLock(At(s, o));
      assert o != t && At(s', o) == At(s, o);
    }
  }

  /** What a thread does to the queue and the flags. Only queueing and leaving touch the queue, at its front and at the
      thread itself; the flags go up for the front of the queue and down for the thread itself; the lock is given up
      only by its owner. No step moves another thread. */
  lemma StepTouches(s: State, e: Event)
    requires Inv(s) && Enabled(s, e)
    ensures var s', t := Step(s, e), e.thread;
            && (forall u | u != t :: At(s', u) == At(s, u))
            && (e.op.Enqueue? ==> s'.queue == [t] + s.queue && t !in s'.woken)
            && (e.op.Dequeue? ==>
                  exists k :: 0 <= k < |s.queue| && s.queue[k] == t && s'.queue == s.queue[..k] + s.queue[k + 1..])
            && (!e.op.Enqueue? && !e.op.Dequeue? ==> s'.queue == s.queue)
            && (e.op.WakeOne? ==> forall u :: u in s'.woken <==> u in s.woken || (s.queue != [] && u == s.queue[0]))
            && (e.op.ClearFlag? ==> forall u :: u in s'.woken <==> u in s.woken && u != t)
            && (!e.op.Enqueue? && !e.op.ClearFlag? && !e.op.WakeOne? ==> s'.woken == s.woken)
            && (s.lock && !s'.lock <==> e.op.Release?)
  {
    if e.op.Dequeue? {
      assert Queued(At(s, e.thread));
      var k :| 0 <= k < |s.queue| && s.queue[k] == e.thread;
      WithoutIsOthers(s.queue, k);
    }
    if e.op.Release? { assert HasLock(At(s, e.thread)); }
  }

  // --- Whole runs ---

  ghost predicate Run(states: seq<State>, events: seq<Event>) {
    && |states| == |events| + 1
    && states[0] == State(false, [], {}, map[])
    && (forall i | 0 <= i < |events| ::
          Enabled(states[i], events[i]) && states[i + 1] == Step(states[i], events[i]))
  }

  /** In every interleaving at most one thread has the lock, and a free lock with a
      non-empty queue always has a thread that will wake a sleeper or test the lock. */
  lemma {:induction false} RunKeepsInv(states: seq<State>, events: seq<Event>, i: nat)
    requires Run(states, events) && i < |states|
    ensures Inv(states[i])
  {
    if i > 0 {
      RunKeepsInv(states, events, i - 1);
      assert states[i - 1 + 1] == Step(states[i - 1], events[i - 1]);
      StepKeepsInv(states[i - 1], events[i - 1]);
    }
  }

  predicate Quiet(s: State, t: Thread) {
    At(s, t).Idle? || (At(s, t).Asleep? && t !in s.woken)
  }

  /** No run ends with sleepers that nobody is going to wake: once every thread is idle
      or asleep with its flag down, nobody is asleep. */
  lemma NobodyLeftAsleep(states: seq<State>, events: seq<Event>, i: nat)
    requires Run(states, events) && i < |states|
    requires forall t :: Quiet(states[i], t)
    ensures states[i].queue == [] && !states[i].lock
    ensures forall t :: At(states[i], t).Idle?
  {
    var s := states[i];
    RunKeepsInv(states, events, i);
    assert forall t :: !HasLock(At(s, t)) by {
      forall t ensures !HasLock(At(s, t)) { assert Quiet(s, t); }
    }
    forall t ensures !WillAct(s, t) { assert Quiet(s, t); }
    forall t ensures At(s, t).Idle? { assert Quiet(s, t); }
  }

  function Exec(s: State, events: seq<Event>): State
    decreases |events|
  {
    if events == [] then s else Exec(Step(s, events[0]), events[1..])
  }

  predicate Feasible(s: State, events: seq<Event>)
    decreases |events|
  {
    events == [] || (Enabled(s, events[0]) && Feasible(Step(s, events[0]), events[1..]))
  }

  lemma ExecMore(s: State, e: Event, rest: seq<Event>)
    requires Enabled(s, e) && Feasible(Step(s, e), rest)
    ensures Feasible(s, [e] + rest) && Exec(s, [e] + rest) == Exec(Step(s, e), rest)
  {
    assert ([e] + rest)[1..] == rest;
  }

  /** A queued thread that is flagged or about to test takes a free lock in three own steps. */
  lemma WaiterTakesLock(s: State, t: Thread) returns (events: seq<Event>)
    requires Inv(s) && !s.lock && t in s.queue
    requires t in s.woken || At(s, t).Retest? || At(s, t).Clearing?
    ensures |events| <= 3 && Feasible(s, events) && Exec(s, events).lock
    ensures forall e | e in events :: e.thread == t
    ensures At(Exec(s, events), t).Dequeuing?
  {
    assert !HasLock(At(s, t));
    match At(s, t) {
      case Retest =>
        events := [Event(t, Test)];
        ExecMore(s, Event(t, Test), []);
      case Clearing => events := WaiterFromClearing(s, t);
      case Asleep =>
        var poll := Event(t, PollFlag);
        StepKeepsInv(s, poll);
        var rest := WaiterFromClearing(Step(s, poll), t);
        ExecMore(s, poll, rest);
        events := [poll] + rest;
    }
  }

  lemma WaiterFromClearing(s: State, t: Thread) returns (events: seq<Event>)
    requires !s.lock && At(s, t).Clearing?
    ensures |events| == 2 && Feasible(s, events) && Exec(s, events).lock
    ensures forall e | e in events :: e.thread == t
    ensures At(Exec(s, events), t).Dequeuing?
  {
    var clear, test := Event(t, ClearFlag), Event(t, Test);
    ExecMore(Step(s, clear), test, []);
    ExecMore(s, clear, [test]);
    events := [clear, test];
    assert [clear] + [test] == events;
  }

  /** Whenever the lock is free and threads wait, at most four steps, none of them by an
      idle thread, put the lock into the hands of a waiting thread. */
  lemma FreeLockIsTaken(states: seq<State>, trace: seq<Event>, i: nat) returns (t: Thread, events: seq<Event>)
    requires Run(states, trace) && i < |states| && !states[i].lock && states[i].queue != []
    ensures |events| <= 4 && Feasible(states[i], events)
    ensures t in states[i].queue && Exec(states[i], events).lock && At(Exec(states[i], events), t).Dequeuing?
    ensures forall e | e in events :: !At(states[i], e.thread).Idle?
  {
    var s := states[i];
    RunKeepsInv(states, trace, i);
    t :| WillAct(s, t);
    if At(s, t).Waking? {
      var wake := Event(t, WakeOne);
      StepKeepsInv(s, wake);
      var front := s.queue[0];
      assert Queued(At(s, front));
      var rest := WaiterTakesLock(Step(s, wake), front);
      ExecMore(s, wake, rest);
      events := [wake] + rest;
      t := front;
    } else {
      events := WaiterTakesLock(s, t);
    }
  }

  // --- The mutex as an object ---

  function Threads(ws: seq<Waiter>): seq<Thread> { seq(|ws|, i requires 0 <= i < |ws| => ws[i].thread) }

  lemma {:induction false} WithoutIsOthers(q: seq<Thread>, k: nat)
    requires Distinct(q) && k < |q|
    ensures Without(q, q[k]) == q[..k] + q[k + 1..]
  {
    if k == 0 {
      WithoutNone(q[1..], q[0]);
    } else {
      WithoutIsOthers(q[1..], k - 1);
      assert q[..k] + q[k + 1..] == [q[0]] + (q[1..][..k - 1] + q[1..][k..]);
    }
  }

  lemma {:induction false} WithoutNone(q: seq<Thread>, t: Thread)
    requires t !in q
    ensures Without(q, t) == q
  {
    if q != [] { WithoutNone(q[1..], t); }
  }

  lemma OneLeaves(ws: seq<Waiter>, k: nat)
    requires Distinct(Threads(ws)) && k < |ws|
    ensures Threads(ws[..k] + ws[k + 1..]) == Without(Threads(ws), ws[k].thread)
    ensures forall w | w in ws[..k] + ws[k + 1..] :: w in ws
  {
    WithoutIsOthers(Threads(ws), k);
  }

  /** The mutex itself: a flag, a wait queue, and the waiter that each thread made last. Every method is one step of
      one thread. */
  class Mutex {
    var lock: bool
    const queue: WaitQueue
    var waiters: map<Thread, Waiter>
    ghost var pc: map<Thread, Pc>

    ghost function Woken(): set<Thread>
      reads this, waiters.Values
    {
      set t | t in waiters && waiters[t].isWokenUp
    }

    ghost function View(): State
      reads this, queue, waiters.Values
    {
      State(lock, Threads(queue.waiters), Woken(), pc)
    }

    ghost predicate Valid()
      reads this, queue, waiters.Values
    {
      && queue.Valid()
      && (forall t | t in waiters :: waiters[t].thread == t && !waiters[t].exclusive)
      && (forall w | w in queue.waiters :: w.thread in waiters && waiters[w.thread] == w)
      && Inv(View())
    }

    constructor ()
      ensures Valid() && fresh(queue) && View() == State(false, [], {}, map[])
    {
      queue := new WaitQueue();
      lock, waiters, pc := false, map[], map[];
    }

    /** `try_lock`: one compare-exchange. */
    method TryLock(t: Thread) returns (acquired: bool)
      requires Valid() && At(View(), t).Idle?
      modifies this
      ensures Valid() && waiters == old(waiters) && View() == Step(old(View()), Event(t, Op.TryLock))
      ensures lock && (acquired <==> !old(lock)) && (acquired <==> HasLock(At(View(), t)))
    {
      ghost var s' := Step(View(), Event(t, Op.TryLock));
      StepKeepsInv(View(), Event(t, Op.TryLock));
      acquired := !lock;
      if acquired { lock, pc := true, pc[t := Holding]; }
      assert Woken() == s'.woken;
    }

    /** The first test of `do_wait`. */
    method FirstTry(t: Thread) returns (acquired: bool)
      requires Valid() && At(View(), t).Idle?
      modifies this
      ensures Valid() && waiters == old(waiters) && View() == Step(old(View()), Event(t, Op.FirstTry))
      ensures lock && (acquired <==> !old(lock)) && (acquired <==> HasLock(At(View(), t)))
    {
      ghost var s' := Step(View(), Event(t, Op.FirstTry));
      StepKeepsInv(View(), Event(t, Op.FirstTry));
      acquired := !lock;
      lock := true;
      pc := pc[t := if acquired then Holding else NewWaiter];
      assert Woken() == s'.woken;
    }

    /** A new waiter joins at the front of the queue. */
    method Enqueue(t: Thread)
      requires Valid() && At(View(), t).NewWaiter?
      modifies this, queue
      ensures Valid() && View() == Step(old(View()), Event(t, Op.Enqueue))
      ensures t in waiters && fresh(waiters[t]) && waiters == old(waiters)[t := waiters[t]]
      ensures queue.waiters == [waiters[t]] + old(queue.waiters) && !waiters[t].isWokenUp
    {
      ghost var s, s' := View(), Step(View(), Event(t, Op.Enqueue));
      StepKeepsInv(s, Event(t, Op.Enqueue));
      NotQueued(t);
      var waiter := new Waiter(t, false);
      queue.Enqueue(waiter);
      waiters, pc := waiters[t := waiter], pc[t := Retest];
      assert Threads(queue.waiters) == s'.queue;
      assert Woken() == s'.woken;
    }

    lemma NotQueued(t: Thread)
      requires Valid() && !Queued(At(View(), t))
      ensures forall w | w in queue.waiters :: w.thread != t
    {
      forall w | w in queue.waiters ensures w.thread != t {
        var i :| 0 <= i < |queue.waiters| && queue.waiters[i] == w;
        assert Threads(queue.waiters)[i] == w.thread;
        assert w.thread in View().queue;
      }
    }

    lemma IsQueued(t: Thread)
      requires Valid() && Queued(At(View(), t))
      ensures t in waiters && waiters[t] in queue.waiters
    {
      assert t in View().queue;
      var i :| 0 <= i < |View().queue| && View().queue[i] == t;
      assert queue.waiters[i].thread == t && queue.waiters[i] in queue.waiters;
    }

    /** The test at the head of the loop of `do_wait`. */
    method Test(t: Thread) returns (acquired: bool)
      requires Valid() && At(View(), t).Retest?
      modifies this
      ensures Valid() && waiters == old(waiters) && View() == Step(old(View()), Event(t, Op.Test))
      ensures lock && (acquired <==> !old(lock)) && (acquired <==> HasLock(At(View(), t)))
    {
      ghost var s' := Step(View(), Event(t, Op.Test));
      StepKeepsInv(View(), Event(t, Op.Test));
      acquired := !lock;
      lock := true;
      pc := pc[t := if acquired then Dequeuing else Asleep];
      assert Woken() == s'.woken;
    }

    /** One look at the flag in `Waiter::wait`. */
    method PollFlag(t: Thread) returns (raised: bool)
      requires Valid() && At(View(), t).Asleep?
      modifies this
      ensures Valid() && waiters == old(waiters) && View() == Step(old(View()), Event(t, Op.PollFlag))
      ensures t in waiters && raised == waiters[t].isWokenUp
    {
      ghost var s' := Step(View(), Event(t, Op.PollFlag));
      StepKeepsInv(View(), Event(t, Op.PollFlag));
      IsQueued(t);
      raised := waiters[t].isWokenUp;
      if raised { pc := pc[t := Clearing]; }
      assert Woken() == s'.woken;
    }

    /** `Waiter::wait` lowers the flag before it returns. */
    method ClearFlag(t: Thread)
      requires Valid() && At(View(), t).Clearing?
      modifies this, waiters.Values
      ensures Valid() && waiters == old(waiters) && View() == Step(old(View()), Event(t, Op.ClearFlag))
      ensures t in waiters && !waiters[t].isWokenUp
      ensures forall u | u in waiters && u != t :: waiters[u].isWokenUp == old(waiters[u].isWokenUp)
    {
      ghost var s' := Step(View(), Event(t, Op.ClearFlag));
      StepKeepsInv(View(), Event(t, Op.ClearFlag));
      IsQueued(t);
      assert waiters[t] in waiters.Values;
      waiters[t].isWokenUp := false;
      pc := pc[t := Retest];
      assert Woken() == s'.woken;
    }

    /** The new owner leaves the queue. */
    method Dequeue(t: Thread)
      requires Valid() && At(View(), t).Dequeuing?
      modifies this, queue
      ensures Valid() && waiters == old(waiters) && View() == Step(old(View()), Event(t, Op.Dequeue))
      ensures t in waiters && waiters[t] !in queue.waiters
      ensures forall k | 0 <= k < |old(queue.waiters)| && old(queue.waiters)[k] == waiters[t] ::
                queue.waiters == old(queue.waiters)[..k] + old(queue.waiters)[k + 1..]
    {
      ghost var s, ws := View(), queue.waiters;
      StepKeepsInv(s, Event(t, Op.Dequeue));
      IsQueued(t);
      ghost var k :| 0 <= k < |ws| && ws[k] == waiters[t];
      OneLeaves(ws, k);
      queue.Dequeue(waiters[t]);
      pc := pc[t := Holding];
      assert queue.waiters == ws[..k] + ws[k + 1..];
      assert Threads(queue.waiters) == Step(s, Event(t, Op.Dequeue)).queue;
      assert Woken() == s.woken;
    }

    /** `release_lock`. */
    method Release(t: Thread)
      requires Valid() && At(View(), t).Holding?
      modifies this
      ensures Valid() && waiters == old(waiters) && View() == Step(old(View()), Event(t, Op.Release)) && !lock
    {
      ghost var s' := Step(View(), Event(t, Op.Release));
      StepKeepsInv(View(), Event(t, Op.Release));
      lock, pc := false, pc[t := Waking];
      assert Woken() == s'.woken;
    }

    /** `wake_one`, after the release. */
    method WakeOne(t: Thread)
      requires Valid() && At(View(), t).Waking?
      modifies this, waiters.Values
      ensures Valid() && waiters == old(waiters) && View() == Step(old(View()), Event(t, Op.WakeOne))
      ensures queue.waiters != [] ==> queue.waiters[0].isWokenUp
      ensures forall u | u in waiters && (queue.waiters == [] || waiters[u] != queue.waiters[0]) ::
                waiters[u].isWokenUp == old(waiters[u].isWokenUp)
    {
      ghost var s' := Step(View(), Event(t, Op.WakeOne));
      StepKeepsInv(View(), Event(t, Op.WakeOne));
      if queue.waiters != [] {
        ghost var front := queue.waiters[0];
        assert front in queue.waiters && front.thread in waiters && waiters[front.thread] in waiters.Values;
      }
      queue.WakeOne();
      pc := pc[t := Idle];
      assert Woken() == s'.woken;
    }
  }
}
