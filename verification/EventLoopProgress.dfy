/**
 What must still happen in the protocol of `EventLoopProtocol`: a stored quit flag makes
 the loop exit, and a queued callback runs.
 */
module EventLoopProgress {
  import opened Sequences
  import opened EventLoopProtocol

  // ------------------------------------------------- quit leads to exit

  predicate Quitting(s: State) {
    s.quit && !s.loop.NotStarted?
  }

  /** Phases left before the loop thread exits, and work left inside the current one. */
  function PhasesLeft(loop: LoopPhase): nat {
    match loop
    case Exited => 0
    case CheckQuit => 1
    case Running(_) => 2
    case SwapLocked => 3
    case Swapping => 4
    case Handling(_) => 5
    case AtPoll => 6
    case NotStarted => 7
  }

  function WorkLeft(loop: LoopPhase): nat {
    match loop
    case Running(batch) => |batch|
    case Handling(active) => |active|
    case _ => 0
  }

  /**
   Once quitting, every step of the loop thread brings it closer to its exit in the
   lexicographic order, and no step of another thread moves it away.
   */
  lemma QuittingMakesProgress(s: State, e: Event)
    requires Quitting(s) && Enabled(s, e)
    ensures var s' := Apply(s, e);
            && Quitting(s')
            && if e.OfLoopThread() then
                 || PhasesLeft(s'.loop) < PhasesLeft(s.loop)
                 || (PhasesLeft(s'.loop) == PhasesLeft(s.loop) && WorkLeft(s'.loop) < WorkLeft(s.loop))
               else
                 s'.loop == s.loop
  {}

  function Polls(events: seq<Event>): (n: nat)
    ensures n == 0 <==> forall e | e in events :: !e.Poll?
  {
    if events == [] then 0 else (if events[0].Poll? then 1 else 0) + Polls(events[1..])
  }

  /** After a quit the loop polls at most once more, and only if it was already there. */
  lemma {:induction false} AtMostOnePollAfterQuit(s: State, events: seq<Event>)
    requires Quitting(s) && Possible(s, events)
    ensures Polls(events) + (if Reached(s, events).loop.AtPoll? then 1 else 0) <= if s.loop.AtPoll? then 1 else 0
    decreases |events|
  {
    if events != [] {
      QuittingMakesProgress(s, events[0]);
      AtMostOnePollAfterQuit(Apply(s, events[0]), events[1..]);
    }
  }

  /** Once a quitting loop is awake it never sleeps again, whatever the other threads do. */
  lemma {:induction false} QuittingStaysAwake(s: State, events: seq<Event>)
    requires s.quit && !s.loop.NotStarted? && !(s.loop.AtPoll? && s.counter == 0) && Possible(s, events)
    ensures !(Reached(s, events).loop.AtPoll? && Reached(s, events).counter == 0)
    decreases |events|
  {
    if events != [] {
      QuittingMakesProgress(s, events[0]);
      QuittingStaysAwake(Apply(s, events[0]), events[1..]);
    }
  }

  lemma {:induction false} QuittingRemains(s: State, events: seq<Event>)
    requires Quitting(s) && Possible(s, events)
    ensures Quitting(Reached(s, events))
    decreases |events|
  {
    if events != [] {
      QuittingMakesProgress(s, events[0]);
      QuittingRemains(Apply(s, events[0]), events[1..]);
    }
  }

  /**
   A completed quit: one thread stores the flag after the loop has started, anything happens,
   the same thread wakes the loop, anything happens. From its Wakeup on the loop never
   sleeps, even while other threads stand in the middle of quits of their own.
   */
  lemma CompletedQuitKeepsAwake(s: State, t: Tid, first: seq<Event>, second: seq<Event>)
    requires !s.loop.NotStarted? && Enabled(s, StoreQuit(t))
    requires Possible(Apply(s, StoreQuit(t)), first)
    requires Enabled(Reached(Apply(s, StoreQuit(t)), first), Wake(t))
    requires Possible(Apply(Reached(Apply(s, StoreQuit(t)), first), Wake(t)), second)
    ensures var s' := Reached(Apply(Reached(Apply(s, StoreQuit(t)), first), Wake(t)), second);
            !(s'.loop.AtPoll? && s'.counter == 0)
  {
    QuittingRemains(Apply(s, StoreQuit(t)), first);
    QuittingStaysAwake(Apply(Reached(Apply(s, StoreQuit(t)), first), Wake(t)), second);
  }

  function LoopSteps(events: seq<Event>): (n: nat)
    ensures n <= |events|
    ensures n == |events| <==> forall e | e in events :: e.OfLoopThread()
  {
    if events == [] then 0 else (if events[0].OfLoopThread() then 1 else 0) + LoopSteps(events[1..])
  }

  /** Work the environment adds during a run: callbacks pushed and channels reported ready. */
  function Added(events: seq<Event>): (n: nat)
    ensures n == 0 <==> forall e | e in events :: !e.Push? && (e.Poll? ==> e.ready == [])
  {
    if events == [] then 0
    else
      (match events[0]
       case Push(_, _) => 1
       case Poll(ready) => |ready|
       case _ => 0)
      + Added(events[1..])
  }

  /** Loop-thread steps a quitting loop still needs for the work it has. */
  function StepsLeft(s: State): nat {
    PhasesLeft(s.loop) + WorkLeft(s.loop)
    + if s.loop.AtPoll? || BeforeSwap(s.loop) then |s.pending| else 0
  }

  /** A quitting loop does no more steps, in any run, than the work it has and is given. */
  lemma {:induction false} QuittingLoopIsBounded(s: State, events: seq<Event>)
    requires Quitting(s) && Possible(s, events)
    ensures LoopSteps(events) + StepsLeft(Reached(s, events)) <= StepsLeft(s) + Added(events)
    ensures StepsLeft(s) <= 7 + WorkLeft(s.loop) + |s.pending|
    ensures Reached(s, events).loop.Exited? <==> StepsLeft(Reached(s, events)) == 0
    decreases |events|
  {
    if events != [] {
      QuittingMakesProgress(s, events[0]);
      QuittingLoopIsBounded(Apply(s, events[0]), events[1..]);
    }
  }

  /** A run in which polls only return because the eventfd is readable. */
  ghost predicate Schedule(s: State, events: seq<Event>) {
    Possible(s, events) && forall e | e in events :: e.Poll? ==> e.ready == [WakeChannel]
  }

  /** The other thread the loop thread waits for: the holder of the mutex, or whoever is about to wake it. */
  predicate Waiting(s: State) {
    Asleep(s) || (s.loop.Swapping? && s.holder.Other?)
  }

  /** What the loop thread does next when it is not waiting; nothing it runs calls Quit. */
  function LoopMove(loop: LoopPhase): Event
    requires !loop.Exited?
  {
    match loop
    case NotStarted => Start
    case CheckQuit => TestQuit
    case AtPoll => Poll([WakeChannel])
    case Handling(active) => if active == [] then FinishHandling else Handle(false)
    case Swapping => LoopLock
    case SwapLocked => Swap
    case Running(batch) => if batch == [] then FinishBatch else RunTask(false)
  }

  /** A step that is possible now: the loop thread's own, or the one that ends its wait. */
  lemma NextMove(s: State) returns (e: Event)
    requires Inv(s) && !s.loop.Exited?
    requires Asleep(s) ==> s.quit || s.pending != []
    ensures Enabled(s, e) && (e.Poll? ==> e.ready == [WakeChannel])
    ensures if Waiting(s) then (e.Wake? || e.Push?) && !Waiting(Apply(s, e)) else e == LoopMove(s.loop)
  {
    if Asleep(s) {
      var t :| In(s, t, Queued) || In(s, t, QuitStored);
      e := Wake(t);
    } else if Waiting(s) {
      e := Push(s.holder.tid, NextTask(s, s.holder.tid));
    } else {
      e := LoopMove(s.loop);
    }
  }

  lemma Prepend(s: State, e: Event, events: seq<Event>)
    requires Enabled(s, e) && (e.Poll? ==> e.ready == [WakeChannel])
    requires Schedule(Apply(s, e), events)
    ensures Schedule(s, [e] + events)
    ensures Reached(s, [e] + events) == Reached(Apply(s, e), events)
  {}

  /**
   From every state in which a quit has been stored after the start, the loop can reach
   its exit by its own steps and, where it waits, one step of the thread that holds
   the mutex or still owes it a Wakeup. It never needs a poll that returns by accident.
   */
  lemma {:induction false} QuitReachesExit(s: State) returns (events: seq<Event>)
    requires Inv(s) && Quitting(s)
    ensures Schedule(s, events) && Reached(s, events).loop.Exited?
    decreases PhasesLeft(s.loop), WorkLeft(s.loop), if Waiting(s) then 1 else 0
  {
    if s.loop.Exited? {
      return [];
    }
    var e := NextMove(s);
    StepInv(s, e);
    QuittingMakesProgress(s, e);
    events := QuitReachesExit(Apply(s, e));
    Prepend(s, e, events);
    events := [e] + events;
  }

  // ------------------------------------------- queued callbacks get to run

  /** Phases left before everything now queued has run. */
  function DeliveryPhases(s: State): nat {
    match s.loop
    case Exited => 0
    case Running(_) => if s.pending == [] then 1 else 8
    case SwapLocked => 2
    case Swapping => 3
    case Handling(_) => 4
    case AtPoll => 5
    case CheckQuit => 6
    case NotStarted => 7
  }

  /**
   From every reachable state, all callbacks queued so far can come to run without any
   lucky poll, unless a quit request makes the loop exit before.
   */
  lemma {:induction false} QueuedCallbacksRun(s: State, goal: nat) returns (events: seq<Event>)
    requires Inv(s) && goal <= |s.enqueued|
    ensures Schedule(s, events)
    ensures var s' := Reached(s, events);
            if s'.loop.Exited? then s.loop.Exited? || s.quit
            else s.enqueued[..goal] <= s'.executed && s.enqueued <= s'.enqueued
    decreases DeliveryPhases(s), WorkLeft(s.loop), if Waiting(s) then 1 else 0
  {
    if s.loop.Exited? || goal <= |s.executed| {
      assert s.executed + Batch(s) + s.pending == s.executed + (Batch(s) + s.pending);
      return [];
    }
    var e := NextMove(s);
    StepInv(s, e);
    events := QueuedCallbacksRun(Apply(s, e), goal);
    Prepend(s, e, events);
    events := [e] + events;
  }

  /** The callbacks up to `goal` will have run when the current batch has. */
  predicate BatchSuffices(s: State, goal: nat) {
    s.loop.Running? && goal <= |s.executed| + |s.loop.batch|
  }

  /** Loop-thread steps until the first `goal` callbacks have run, with the work there is now. */
  function DeliverySteps(s: State, goal: nat): nat {
    if BatchSuffices(s, goal) then |s.loop.batch|
    else
      WorkLeft(s.loop) + |s.pending| +
      match s.loop
      case Exited => 0
      case Running(_) => 7
      case SwapLocked => 1
      case Swapping => 2
      case Handling(_) => 3
      case AtPoll => 4
      case CheckQuit => 5
      case NotStarted => 6
  }

  /** The first `goal` callbacks have run, or a quit was quicker. */
  predicate Settled(s: State, goal: nat) {
    goal <= |s.executed| || s.loop.Exited?
  }

  lemma DeliveryMakesProgress(s: State, e: Event, goal: nat)
    requires Inv(s) && Enabled(s, e) && goal <= |s.enqueued|
    ensures var s' := Apply(s, e);
            && (Settled(s, goal) ==> Settled(s', goal))
            && (Settled(s', goal)
                || LoopSteps([e]) + DeliverySteps(s', goal) <= DeliverySteps(s, goal) + Added([e]))
  {
    assert [e][1..] == [];
    assert |s.enqueued| == |s.executed| + |Batch(s)| + |s.pending|;
  }

  /**
   Delivery is inevitable: in every run, of any interleaving and with any polls, the loop
   thread cannot take more steps than the work there was and the work added to it before
   everything queued at the start of the run has been called, unless a quit makes it exit.
   */
  lemma {:induction false} QueuedCallbacksMustRun(s: State, events: seq<Event>, goal: nat)
    requires Inv(s) && Possible(s, events) && goal <= |s.enqueued|
    ensures Settled(s, goal) ==> Settled(Reached(s, events), goal)
    ensures Settled(Reached(s, events), goal)
         || LoopSteps(events) + DeliverySteps(Reached(s, events), goal) <= DeliverySteps(s, goal) + Added(events)
    ensures DeliverySteps(s, goal) <= 7 + WorkLeft(s.loop) + |s.pending|
    decreases |events|
  {
    if events != [] {
      StepInv(s, events[0]);
      DeliveryMakesProgress(s, events[0], goal);
      QueuedCallbacksMustRun(Apply(s, events[0]), events[1..], goal);
      assert [events[0]][1..] == [];
    }
  }

  // ------------------------------------- what one turn of the loop delivers

  /** From the poll's return on, the current turn of the loop owes the callbacks queued before. */
  ghost predicate Owes(s: State, queued: seq<Task>) {
    match s.loop
    case Handling(_) => queued <= s.enqueued
    case Swapping => queued <= s.enqueued
    case SwapLocked => queued <= s.enqueued
    case Running(batch) => queued <= s.executed + batch
    case _ => queued <= s.executed
  }

  lemma StepOwes(s: State, e: Event, queued: seq<Task>)
    requires InOrder(s) && Enabled(s, e) && Owes(s, queued)
    ensures Owes(Apply(s, e), queued)
  {
    match e
    case Poll(_) => assert s.enqueued == s.executed + [] + s.pending;
    case Swap => assert s.enqueued == s.executed + [] + s.pending == s.executed + s.pending;
    case RunTask(_) => Assoc(s.executed, [s.loop.batch[0]], s.loop.batch[1..]);
    case _ =>
  }

  lemma {:induction false} OwedCallbacksRun(s: State, events: seq<Event>, queued: seq<Task>)
    requires Inv(s) && Possible(s, events) && Owes(s, queued)
    ensures Owes(Reached(s, events), queued)
    decreases |events|
  {
    if events != [] {
      StepOwes(s, events[0], queued);
      StepInv(s, events[0]);
      OwedCallbacksRun(Apply(s, events[0]), events[1..], queued);
    }
  }

  /**
   Every turn of the loop, however it is disturbed: what was queued while the loop thread was
   handling events or about to swap has run whenever it is next at its condition, at the
   poll, or gone.
   */
  lemma TurnRunsQueued(s: State, events: seq<Event>)
    requires Inv(s) && Possible(s, events) && BeforeSwap(s.loop)
    ensures var s' := Reached(s, events);
            s'.loop.CheckQuit? || s'.loop.AtPoll? || s'.loop.Exited? ==> s.enqueued <= s'.executed
  {
    OwedCallbacksRun(s, events, s.enqueued);
  }

  /** What has been queued when a run first swaps. */
  function QueuedAtSwap(s: State, events: seq<Event>): seq<Task>
    requires Possible(s, events)
    decreases |events|
  {
    if events == [] || events[0] == Swap then s.enqueued else QueuedAtSwap(Apply(s, events[0]), events[1..])
  }

  /** A run of `DoPendingFunctors` and of whatever other threads do meanwhile. */
  predicate RunsBatch(events: seq<Event>) {
    events != [] && events[|events| - 1] == FinishBatch && FinishBatch !in events[..|events| - 1]
  }

  lemma {:induction false} BatchRuns(s: State, events: seq<Event>)
    requires s.loop.Running? && Possible(s, events) && RunsBatch(events)
    ensures Reached(s, events).loop.CheckQuit? && Reached(s, events).executed == s.executed + s.loop.batch
    decreases |events|
  {
    if |events| > 1 {
      LaterInBatch(events);
      BatchRuns(Apply(s, events[0]), events[1..]);
      if events[0].RunTask? {
        Assoc(s.executed, [s.loop.batch[0]], s.loop.batch[1..]);
      }
    }
  }

  lemma LaterInBatch(events: seq<Event>)
    requires RunsBatch(events) && |events| > 1
    ensures RunsBatch(events[1..]) && events[0] != FinishBatch
  {
    assert events[1..][..|events| - 2] == events[..|events| - 1][1..];
    assert events[0] == events[..|events| - 1][0];
  }

  /**
   `DoPendingFunctors` under any interleaving: when it returns, exactly what had been queued
   when it swapped has run, including all that was queued when it was called; what was
   queued later is still there, and nothing else is.
   */
  lemma {:induction false} BatchIsExact(s: State, events: seq<Event>)
    requires Inv(s) && (s.loop.Swapping? || s.loop.SwapLocked?) && Possible(s, events)
    requires events != [] && events[|events| - 1] == FinishBatch && FinishBatch !in events[..|events| - 1]
    ensures var s' := Reached(s, events);
            && s'.loop.CheckQuit? && s'.executed == QueuedAtSwap(s, events)
            && s.enqueued <= s'.executed && s'.executed + s'.pending == s'.enqueued
    decreases |events|
  {
    var e, next, rest := events[0], Apply(s, events[0]), events[1..];
    RunInv(s, events);
    StepInv(s, e);
    assert |events| > 1;
    LaterInBatch(events);
    if e == Swap {
      BatchRuns(next, rest);
    } else {
      BatchIsExact(next, rest);
    }
  }

  lemma {:induction false} EnqueuedGrows(s: State, events: seq<Event>)
    requires Possible(s, events)
    ensures s.enqueued <= Reached(s, events).enqueued
    decreases |events|
  {
    if events != [] {
      EnqueuedGrows(Apply(s, events[0]), events[1..]);
    }
  }
}
