/**
 The cross-thread task queue of `EventLoop` as a transition system: one loop thread,
 any number of other threads, a mutex, an eventfd counter and a level-triggered poll
 without timeout. Every step is one atomic section of the source.
 */
module EventLoopProtocol {
  import opened Sequences

  /** The other threads. The loop thread is not one of them. */
  type Tid = nat

  /** The `index`-th callback `owner` passes to `RunInLoop`. */
  datatype Task = Task(owner: Tid, index: nat)

  datatype Channel = WakeChannel | Fd(fd: nat)

  /** The largest value an eventfd counter holds; a write that would exceed it fails. */
  const EVENTFD_MAX: nat := 0xffff_ffff_ffff_fffe

  datatype ThreadPhase =
    | Idle
    | Locked      // inside the critical section of QueueInLoop
    | Queued      // callback pushed, mutex released, Wakeup still to come
    | QuitStored  // quit_flag_ stored, Wakeup still to come

  datatype LoopPhase =
    | NotStarted
    | CheckQuit
    | AtPoll
    | Handling(active: seq<Channel>)
    | Swapping
    | SwapLocked
    | Running(batch: seq<Task>)
    | Exited

  datatype Holder = Free | LoopThread | Other(tid: Tid)

  /** `enqueued` and `executed` record the history of pushes and of callbacks run. */
  datatype State = State(
    loop: LoopPhase,
    quit: bool,
    counter: nat,
    pending: seq<Task>,
    holder: Holder,
    threads: map<Tid, ThreadPhase>,
    enqueued: seq<Task>,
    executed: seq<Task>)

  datatype Event =
    | Start                          // Loop() clears quit_flag_
    | TestQuit                       // the loop condition
    | Poll(ready: seq<Channel>)      // epoll_wait returns; nothing ready means EINTR
    | Handle(quits: bool)            // one channel's handler, which may call Quit
    | FinishHandling
    | LoopLock                       // DoPendingFunctors takes the mutex
    | Swap                           // swaps the queue out and releases the mutex
    | RunTask(quits: bool)           // one callback, which may call Quit
    | FinishBatch
    | Lock(tid: Tid)                 // QueueInLoop takes the mutex
    | Push(tid: Tid, task: Task)     // pushes and releases the mutex
    | StoreQuit(tid: Tid)            // the first half of Quit
    | Wake(tid: Tid)                 // Wakeup, the second half of QueueInLoop and Quit
  {
    predicate OfLoopThread() {
      !(Lock? || Push? || StoreQuit? || Wake?)
    }

    predicate StoresQuit() {
      StoreQuit? || (Handle? && quits) || (RunTask? && quits)
    }
  }

  function Own(tasks: seq<Task>, t: Tid): seq<Task> {
    if tasks == [] then []
    else Mine(tasks[0], t) + Own(tasks[1..], t)
  }

  function Mine(task: Task, t: Tid): seq<Task> {
    if task.owner == t then [task] else []
  }

  /** The next callback of a thread, labelled by how many it queued before. */
  function NextTask(s: State, t: Tid): Task {
    Task(t, |Own(s.enqueued, t)|)
  }

  predicate In(s: State, t: Tid, phase: ThreadPhase) {
    t in s.threads && s.threads[t] == phase
  }

  predicate Enabled(s: State, e: Event) {
    match e
    case Start => s.loop.NotStarted?
    case TestQuit => s.loop.CheckQuit?
    case Poll(ready) => s.loop.AtPoll? && (WakeChannel in ready ==> s.counter > 0)
    case Handle(_) => s.loop.Handling? && s.loop.active != []
    case FinishHandling => s.loop.Handling? && s.loop.active == []
    case LoopLock => s.loop.Swapping? && s.holder == Free
    case Swap => s.loop.SwapLocked?
    case RunTask(_) => s.loop.Running? && s.loop.batch != []
    case FinishBatch => s.loop.Running? && s.loop.batch == []
    case Lock(t) => In(s, t, Idle) && s.holder == Free
    case Push(t, task) => In(s, t, Locked) && task == NextTask(s, t)
    case StoreQuit(t) => In(s, t, Idle)
    case Wake(t) => In(s, t, Queued) || In(s, t, QuitStored)
  }

  function Apply(s: State, e: Event): State
    requires Enabled(s, e)
  {
    match e
    case Start => s.(loop := CheckQuit, quit := false)
    case TestQuit => s.(loop := if s.quit then Exited else AtPoll)
    case Poll(ready) => s.(loop := Handling(ready))
    case Handle(quits) =>
      // the wakeup channel's handler reads the eventfd, which zeroes its counter
      s.(loop := Handling(s.loop.active[1..]),
         counter := if s.loop.active[0] == WakeChannel then 0 else s.counter,
         quit := s.quit || quits)
    case FinishHandling => s.(loop := Swapping)
    case LoopLock => s.(loop := SwapLocked, holder := LoopThread)
    case Swap => s.(loop := Running(s.pending), pending := [], holder := Free)
    case RunTask(quits) =>
      s.(loop := Running(s.loop.batch[1..]),
         executed := s.executed + [s.loop.batch[0]],
         quit := s.quit || quits)
    case FinishBatch => s.(loop := CheckQuit)
    case Lock(t) => s.(holder := Other(t), threads := s.threads[t := Locked])
    case Push(t, task) =>
      s.(pending := s.pending + [task],
         enqueued := s.enqueued + [task],
         holder := Free,
         threads := s.threads[t := Queued])
    case StoreQuit(t) => s.(quit := true, threads := s.threads[t := QuitStored])
    case Wake(t) =>
      s.(counter := if s.counter < EVENTFD_MAX then s.counter + 1 else s.counter,
         threads := s.threads[t := Idle])
  }

  ghost predicate Init(s: State) {
    && s.loop.NotStarted? && !s.quit && s.counter == 0
    && s.pending == s.enqueued == s.executed == []
    && s.holder == Free
    && forall t | t in s.threads :: s.threads[t] == Idle
  }

  /** `events` can happen one after the other from `s`. */
  predicate Possible(s: State, events: seq<Event>)
    decreases |events|
  {
    events == [] || (Enabled(s, events[0]) && Possible(Apply(s, events[0]), events[1..]))
  }

  function Reached(s: State, events: seq<Event>): State
    requires Possible(s, events)
    decreases |events|
  {
    if events == [] then s else Reached(Apply(s, events[0]), events[1..])
  }

  // ------------------------------------------------------------ invariants

  /** The part of the swapped-out batch that has not run yet. */
  function Batch(s: State): seq<Task> {
    if s.loop.Running? then s.loop.batch else []
  }

  /** Exactly-once FIFO: what ran, what is about to run and what is queued make up the pushes in their order. */
  ghost predicate InOrder(s: State) {
    s.executed + Batch(s) + s.pending == s.enqueued
  }

  /** The first `n` callbacks of one thread. */
  function FirstTasks(t: Tid, n: nat): seq<Task> {
    seq(n, i requires 0 <= i < n => Task(t, i))
  }

  ghost predicate Labelled(s: State) {
    forall t :: Own(s.enqueued, t) == FirstTasks(t, |Own(s.enqueued, t)|)
  }

  /** One holder at a time, and it is the thread that is inside its critical section. */
  ghost predicate Exclusive(s: State) {
    && (forall t | t in s.threads :: s.threads[t] == Locked <==> s.holder == Other(t))
    && (s.loop.SwapLocked? <==> s.holder == LoopThread)
    && (s.holder.Other? ==> s.holder.tid in s.threads)
  }

  /** Between handling events and swapping, the coming swap covers whatever is pending. */
  predicate BeforeSwap(loop: LoopPhase) {
    loop.Handling? || loop.Swapping? || loop.SwapLocked?
  }

  ghost predicate WakeupComing(s: State) {
    s.counter > 0 || exists t :: In(s, t, Queued)
  }

  ghost predicate WorkAnnounced(s: State) {
    s.pending != [] && !BeforeSwap(s.loop) ==> WakeupComing(s)
  }

  ghost predicate QuitAnnounced(s: State) {
    s.quit && s.loop.AtPoll? ==> s.counter > 0 || exists t :: In(s, t, QuitStored)
  }

  ghost predicate Inv(s: State) {
    InOrder(s) && Labelled(s) && Exclusive(s) && WorkAnnounced(s) && QuitAnnounced(s)
  }

  lemma OwnConcat(xs: seq<Task>, ys: seq<Task>, t: Tid)
    ensures Own(xs + ys, t) == Own(xs, t) + Own(ys, t)
  {
    if xs == [] {
      assert xs + ys == ys;
    } else {
      assert (xs + ys)[1..] == xs[1..] + ys;
      OwnConcat(xs[1..], ys, t);
      Assoc(Mine(xs[0], t), Own(xs[1..], t), Own(ys, t));
    }
  }

  lemma InitInv(s: State)
    requires Init(s)
    ensures Inv(s)
  {}

  lemma StepInOrder(s: State, e: Event)
    requires InOrder(s) && Enabled(s, e)
    ensures InOrder(Apply(s, e))
  {
    if e.RunTask? {
      assert [s.loop.batch[0]] + s.loop.batch[1..] == s.loop.batch;
    }
  }

  lemma StepLabelled(s: State, e: Event)
    requires Labelled(s) && Enabled(s, e)
    ensures Labelled(Apply(s, e))
  {
    if e.Push? {
      var task := e.task;
      forall t
        ensures Own(s.enqueued + [task], t) == FirstTasks(t, |Own(s.enqueued + [task], t)|)
      {
        OwnConcat(s.enqueued, [task], t);
        assert Own([task], t) == if t == e.tid then [task] else [];
      }
    }
  }

  lemma StepExclusive(s: State, e: Event)
    requires Exclusive(s) && Enabled(s, e)
    ensures Exclusive(Apply(s, e))
  {}

  /** A thread about to call Wakeup stays so until it has. */
  lemma StepKeepsThread(s: State, e: Event, t: Tid, phase: ThreadPhase)
    requires Enabled(s, e) && In(s, t, phase) && (phase.Queued? || phase.QuitStored?)
    ensures In(Apply(s, e), t, phase) || e == Wake(t)
  {}

  lemma StepWorkAnnounced(s: State, e: Event)
    requires WorkAnnounced(s) && Enabled(s, e)
    ensures WorkAnnounced(Apply(s, e))
  {
    var s' := Apply(s, e);
    if e.Push? {
      assert In(s', e.tid, Queued);
    } else if s'.pending != [] && !BeforeSwap(s'.loop) && s'.counter == 0 {
      var t :| In(s, t, Queued);
      StepKeepsThread(s, e, t, Queued);
    }
  }

  lemma StepQuitAnnounced(s: State, e: Event)
    requires QuitAnnounced(s) && Enabled(s, e)
    ensures QuitAnnounced(Apply(s, e))
  {
    var s' := Apply(s, e);
    if e.StoreQuit? {
      assert In(s', e.tid, QuitStored);
    } else if s'.quit && s'.loop.AtPoll? && s'.counter == 0 {
      var t :| In(s, t, QuitStored);
      StepKeepsThread(s, e, t, QuitStored);
    }
  }

  lemma StepInv(s: State, e: Event)
    requires Inv(s) && Enabled(s, e)
    ensures Inv(Apply(s, e))
  {
    StepInOrder(s, e);
    StepLabelled(s, e);
    StepExclusive(s, e);
    StepWorkAnnounced(s, e);
    StepQuitAnnounced(s, e);
  }

  lemma {:induction false} RunInv(s: State, events: seq<Event>)
    requires Inv(s) && Possible(s, events)
    ensures Inv(Reached(s, events))
    decreases |events|
  {
    if events != [] {
      StepInv(s, events[0]);
      RunInv(Apply(s, events[0]), events[1..]);
    }
  }

  // -------------------------------------------------------------- theorems

  /** The loop thread sleeps in epoll_wait and no counter will wake it. */
  predicate Asleep(s: State) {
    s.loop.AtPoll? && s.counter == 0
  }

  lemma ReachableInv(start: State, events: seq<Event>)
    requires Init(start) && Possible(start, events)
    ensures Inv(Reached(start, events))
  {
    InitInv(start);
    RunInv(start, events);
  }

  /**
   No lost wakeup, over every interleaving: when the loop thread is at the poll and the
   counter is zero, a queued callback or a stored quit flag means some thread still stands
   in front of its own Wakeup. So once every other thread is done with its call, all that
   was queued has run, and nobody's quit is waiting.
   */
  lemma NoLostWakeup(start: State, events: seq<Event>)
    requires Init(start) && Possible(start, events)
    requires Reached(start, events).loop.AtPoll? && Reached(start, events).counter == 0
    ensures var s := Reached(start, events);
            && (s.pending != [] ==> exists t :: In(s, t, Queued))
            && (s.quit ==> exists t :: In(s, t, QuitStored))
            && ((forall t | t in s.threads :: s.threads[t] == Idle) ==> s.executed == s.enqueued && !s.quit)
  {
    ReachableInv(start, events);
  }

  lemma OwnOfPrefix(first: seq<Task>, all: seq<Task>, t: Tid)
    requires first <= all
    ensures Own(first, t) <= Own(all, t)
  {}

  /**
   Exactly once, in order: what has run is a prefix of the pushes, and of each thread's
   callbacks exactly the first few have run, each once and in that thread's order. They
   run while the loop thread does not hold the mutex.
   */
  lemma ExactlyOnceInOrder(start: State, events: seq<Event>, t: Tid)
    requires Init(start) && Possible(start, events)
    ensures var s := Reached(start, events);
            && s.executed <= s.enqueued
            && |Own(s.executed, t)| <= |Own(s.enqueued, t)|
            && Own(s.executed, t) == FirstTasks(t, |Own(s.executed, t)|)
            && (s.loop.Running? ==> s.holder != LoopThread)
  {
    var s := Reached(start, events);
    ReachableInv(start, events);
    assert s.executed + Batch(s) + s.pending == s.executed + (Batch(s) + s.pending);
    OwnOfPrefix(s.executed, s.enqueued, t);
  }

  /** The two threads of control never hold the mutex together. */
  lemma MutualExclusion(start: State, events: seq<Event>, t: Tid, u: Tid)
    requires Init(start) && Possible(start, events) && In(Reached(start, events), t, Locked)
    ensures !Reached(start, events).loop.SwapLocked?
    ensures In(Reached(start, events), u, Locked) ==> u == t
  {
    ReachableInv(start, events);
  }

  // ------------------------------------------------- what threads can do

  /** Runs are all there are: whatever is enabled where a run has got to carries it on. */
  lemma {:induction false} RunGoesOn(s: State, events: seq<Event>, e: Event)
    requires Possible(s, events) && Enabled(Reached(s, events), e)
    ensures Possible(s, []) && Reached(s, []) == s
    ensures Possible(s, events + [e]) && Reached(s, events + [e]) == Apply(Reached(s, events), e)
    decreases |events|
  {
    if events == [] {
      EmptyConcat(events, [e]);
      PossibleOne(s, e);
    } else {
      TailOfConcat(events, [e]);
      RunGoesOn(Apply(s, events[0]), events[1..], e);
    }
  }

  /** The counter after one more write. */
  function Written(counter: nat): nat {
    if counter < 0xffff_ffff_ffff_fffe then counter + 1 else counter
  }

  lemma PossibleThree(s: State, a: Event, b: Event, c: Event)
    requires Enabled(s, a) && Enabled(Apply(s, a), b) && Enabled(Apply(Apply(s, a), b), c)
    ensures Possible(s, [a, b, c]) && Reached(s, [a, b, c]) == Apply(Apply(Apply(s, a), b), c)
  {
    PossibleTwo(Apply(s, a), b, c);
    assert [a, b, c][1..] == [b, c];
  }

  lemma PossibleTwo(s: State, a: Event, b: Event)
    requires Enabled(s, a) && Enabled(Apply(s, a), b)
    ensures Possible(s, [a, b]) && Reached(s, [a, b]) == Apply(Apply(s, a), b)
  {
    PossibleOne(Apply(s, a), b);
    assert [a, b][1..] == [b];
  }

  lemma PossibleOne(s: State, e: Event)
    requires Enabled(s, e)
    ensures Possible(s, [e]) && Reached(s, [e]) == Apply(s, e)
  {
    assert [e][1..] == [];
  }

  /**
   An idle thread can queue a callback in every state in which the mutex is free, whatever
   the loop thread is doing and however much is queued already: the callback ends the
   queue, the counter is written once, and nothing else changes.
   */
  lemma AnyThreadCanQueue(s: State, t: Tid)
    requires t in s.threads && s.threads[t].Idle? && s.holder.Free?
    ensures var task := Task(t, |Own(s.enqueued, t)|);
            && Possible(s, [Lock(t), Push(t, task), Wake(t)])
            && Reached(s, [Lock(t), Push(t, task), Wake(t)]) ==
               s.(pending := s.pending + [task], enqueued := s.enqueued + [task], counter := Written(s.counter))
            && Written(s.counter) > 0
  {
    var task := Task(t, |Own(s.enqueued, t)|);
    PossibleThree(s, Lock(t), Push(t, task), Wake(t));
    assert s.threads[t := Locked][t := Queued][t := Idle] == s.threads;
  }

  /** An idle thread can quit in every state, the mutex taken or not. */
  lemma AnyThreadCanQuit(s: State, t: Tid)
    requires t in s.threads && s.threads[t].Idle?
    ensures Possible(s, [StoreQuit(t), Wake(t)])
    ensures Reached(s, [StoreQuit(t), Wake(t)]) == s.(quit := true, counter := Written(s.counter))
    ensures Written(s.counter) > 0
  {
    PossibleTwo(s, StoreQuit(t), Wake(t));
    assert s.threads[t := QuitStored][t := Idle] == s.threads;
  }

  /** Once it has begun, a call is never held up: nothing but the mutex stands in front of it. */
  lemma BegunCallGoesOn(s: State, t: Tid)
    requires t in s.threads && !s.threads[t].Idle?
    ensures if s.threads[t].Locked? then Enabled(s, Push(t, Task(t, |Own(s.enqueued, t)|))) else Enabled(s, Wake(t))
  {}

  /** The poll can return any list, and the wakeup channel whenever the counter is positive. */
  lemma AnyPollCanReturn(s: State, ready: seq<Channel>)
    requires s.loop.AtPoll?
    ensures Enabled(s, Poll(ready)) <==> (WakeChannel in ready ==> s.counter > 0)
  {}

  /**
   Which quit requests count: after any run the flag is set exactly when some store to
   it came after the last time `Loop` cleared it. A quit completed before that is lost.
   */
  lemma {:induction false} QuitFlagRemembers(s: State, events: seq<Event>)
    requires Possible(s, events)
    ensures Reached(s, events).quit <==>
              || (exists i :: StoredForGood(events, i))
              || (s.quit && Start !in events)
    decreases |events|
  {
    if events != [] {
      var e, rest := events[0], events[1..];
      QuitFlagRemembers(Apply(s, e), rest);
      assert events == [e] + rest;
      forall i | StoredForGood(rest, i)
        ensures StoredForGood(events, i + 1)
      {
        assert events[i + 2..] == rest[i + 1..];
      }
      forall i | StoredForGood(events, i)
        ensures if i == 0 then e.StoresQuit() && Start !in rest else StoredForGood(rest, i - 1)
      {
        assert events[i + 1..] == rest[i..];
      }
      if e.StoresQuit() && Start !in rest {
        assert events[1..] == rest;
        assert StoredForGood(events, 0);
      }
    }
  }

  /** A quit that is complete before the loop starts: the loop goes to its first poll all the same. */
  lemma EarlyQuitIsLost(start: State, t: Tid)
    requires Init(start) && t in start.threads
    ensures var events := [StoreQuit(t), Wake(t), Start, TestQuit];
            && Possible(start, events)
            && !Reached(start, events).quit && Reached(start, events).loop.AtPoll?
  {
    var events := [StoreQuit(t), Wake(t), Start, TestQuit];
    var s1 := Apply(start, StoreQuit(t));
    var s2 := Apply(s1, Wake(t));
    var s3 := Apply(s2, Start);
    assert events[1..] == [Wake(t), Start, TestQuit];
    assert events[1..][1..] == [Start, TestQuit];
    assert events[1..][1..][1..] == [TestQuit];
    assert [TestQuit][1..] == [];
    assert Possible(s3, [TestQuit]) && Reached(s3, [TestQuit]) == Apply(s3, TestQuit);
    assert Possible(s2, [Start, TestQuit]) && Reached(s2, [Start, TestQuit]) == Apply(s3, TestQuit);
  }

  predicate StoredForGood(events: seq<Event>, i: int) {
    0 <= i < |events| && events[i].StoresQuit() && Start !in events[i + 1..]
  }
}
