/**
 `EventLoop` itself: its fields, and one method for each atomic section of its member
 functions. A ghost protocol state runs along; every method is exactly one step of
 `EventLoopProtocol`, so what is proved about all runs there holds of these fields.
 */
module EventLoops {
  import opened EventLoopProtocol
  import opened EventLoopProgress

  ghost predicate Some<T>(items: seq<T>, p: T -> bool) {
    exists item | item in items :: p(item)
  }

  lemma FrontNext<T>(items: seq<T>, i: nat)
    requires i < |items|
    ensures items[..i + 1] == items[..i] + [items[i]]
  {}

  lemma SomeSnoc<T>(items: seq<T>, i: nat, p: T -> bool)
    requires i < |items|
    ensures Some(items[..i + 1], p) <==> Some(items[..i], p) || p(items[i])
    ensures forall item :: item in items[..i + 1] <==> item in items[..i] || item == items[i]
  {
    assert items[..i + 1] == items[..i] + [items[i]];
  }

  /**
   Polls that can happen one after the other with nobody to wake the loop: the wakeup channel
   is reported at most once, and only if the counter is positive.
   */
  ghost predicate Pollable(polls: nat -> seq<Channel>, from: nat, counter: nat) {
    forall i: nat | from <= i && WakeChannel in polls(i) ::
      counter > 0 && forall j: nat | from <= j < i :: WakeChannel !in polls(j)
  }

  lemma PollableLater(polls: nat -> seq<Channel>, from: nat, counter: nat)
    requires Pollable(polls, from, counter)
    ensures WakeChannel in polls(from) ==> counter > 0
    ensures Pollable(polls, from + 1, if WakeChannel in polls(from) then 0 else counter)
  {}

  /** A call of `QueueInLoop` by `tid`, with what else happens around its three sections. */
  ghost predicate Queues(s: State, tid: Tid, cb: Task, before: seq<Event>, locked: seq<Event>, between: seq<Event>) {
    && Possible(s, before) && Enabled(Reached(s, before), Lock(tid))
    && var held := Apply(Reached(s, before), Lock(tid));
    && Possible(held, locked) && Enabled(Reached(held, locked), Push(tid, cb))
    && var pushed := Apply(Reached(held, locked), Push(tid, cb));
    && Possible(pushed, between) && Enabled(Reached(pushed, between), Wake(tid))
  }

  /** The state such a call returns in. */
  ghost function QueueReturns(s: State, tid: Tid, cb: Task, before: seq<Event>, locked: seq<Event>, between: seq<Event>): State
    requires Queues(s, tid, cb, before, locked, between)
  {
    var held := Apply(Reached(s, before), Lock(tid));
    var pushed := Apply(Reached(held, locked), Push(tid, cb));
    Apply(Reached(pushed, between), Wake(tid))
  }

  lemma QueueDelivers(s: State, tid: Tid, cb: Task, before: seq<Event>, locked: seq<Event>, between: seq<Event>)
    requires Queues(s, tid, cb, before, locked, between)
    ensures var s' := QueueReturns(s, tid, cb, before, locked, between);
            && In(s', tid, Idle) && s'.counter > 0
            && s.enqueued < s'.enqueued && cb in s'.enqueued[|s.enqueued|..]
  {
    var held := Apply(Reached(s, before), Lock(tid));
    var ready := Reached(held, locked);
    var s' := QueueReturns(s, tid, cb, before, locked, between);
    EnqueuedGrows(s, before);
    EnqueuedGrows(held, locked);
    EnqueuedGrows(Apply(ready, Push(tid, cb)), between);
    assert s'.enqueued[|ready.enqueued|] == cb;
    assert s'.enqueued[|s.enqueued|..][|ready.enqueued| - |s.enqueued|] == cb;
  }

  /** Every idle thread can make such a call while the mutex is free. */
  lemma CanQueue(s: State, tid: Tid)
    requires tid in s.threads && s.threads[tid].Idle? && s.holder.Free?
    ensures var cb := Task(tid, |Own(s.enqueued, tid)|);
            && Queues(s, tid, cb, [], [], [])
            && QueueReturns(s, tid, cb, [], [], []) ==
               s.(pending := s.pending + [cb], enqueued := s.enqueued + [cb], counter := Written(s.counter))
  {
    assert s.threads[tid := Locked][tid := Queued][tid := Idle] == s.threads;
  }

  /** Every idle thread can quit. */
  lemma CanQuit(s: State, tid: Tid)
    requires tid in s.threads && s.threads[tid].Idle?
    ensures Quits(s, tid, [])
  {}

  ghost predicate Quits(s: State, tid: Tid, between: seq<Event>) {
    && Enabled(s, StoreQuit(tid))
    && Possible(Apply(s, StoreQuit(tid)), between)
    && Enabled(Reached(Apply(s, StoreQuit(tid)), between), Wake(tid))
  }

  class EventLoop {
    var loopFlag: bool
    var eventHandlingFlag: bool
    var quitFlag: bool
    var wakeupCounter: nat
    var mutexHolder: Holder
    var pendingFunctors: seq<Task>

    // locals of Loop and DoPendingFunctors, with the position of their range loops
    var activeChannelList: seq<Channel>
    var nextChannel: nat
    var functors: seq<Task>
    var nextFunctor: nat

    ghost var state: State

    ghost predicate Valid()
      reads this
    {
      && quitFlag == state.quit
      && wakeupCounter == state.counter
      && mutexHolder == state.holder
      && pendingFunctors == state.pending
      && (loopFlag <==> !state.loop.NotStarted? && !state.loop.Exited?)
      && (eventHandlingFlag <==> state.loop.Handling?)
      && nextChannel <= |activeChannelList| && nextFunctor <= |functors|
      && (state.loop.Handling? ==> activeChannelList[nextChannel..] == state.loop.active)
      && (state.loop.Running? ==> functors[nextFunctor..] == state.loop.batch)
      && Inv(state)
    }

    constructor (ghost threads: set<Tid>)
      ensures Valid() && Init(state) && state.threads.Keys == threads
    {
      loopFlag, eventHandlingFlag, quitFlag := false, false, false;
      wakeupCounter, mutexHolder, pendingFunctors := 0, Free, [];
      activeChannelList, nextChannel, functors, nextFunctor := [], 0, [], 0;
      state := State(NotStarted, false, 0, [], Free, map t | t in threads :: Idle, [], []);
    }

    // ------------------------------------------------------ the loop thread

    method BeginLoop()
      requires Valid() && Enabled(state, Start)
      modifies this
      ensures Valid() && state == Apply(old(state), Start)
    {
      StepInv(state, Start);
      loopFlag := true;
      quitFlag := false;
      state := Apply(state, Start);
    }

    method ContinueLoop() returns (continues: bool)
      requires Valid() && Enabled(state, TestQuit)
      modifies this
      ensures Valid() && state == Apply(old(state), TestQuit)
      ensures continues <==> state.loop.AtPoll?
      ensures continues <==> !quitFlag
      ensures continues ==> activeChannelList == []
    {
      StepInv(state, TestQuit);
      continues := !quitFlag;
      if continues {
        activeChannelList, nextChannel := [], 0;
      } else {
        loopFlag := false;
      }
      state := Apply(state, TestQuit);
    }

    method PollReturns(ready: seq<Channel>)
      requires Valid() && Enabled(state, Poll(ready))
      modifies this
      ensures Valid() && state == Apply(old(state), Poll(ready))
      ensures activeChannelList == ready && nextChannel == 0
    {
      StepInv(state, Poll(ready));
      activeChannelList, nextChannel := ready, 0;
      eventHandlingFlag := true;
      state := Apply(state, Poll(ready));
    }

    /** Reading the eventfd takes the whole counter. */
    method HandleWakeUpEvent()
      modifies this`wakeupCounter
      ensures wakeupCounter == 0
    {
      wakeupCounter := 0;
    }

    method HandleEvent(quits: bool)
      requires Valid() && Enabled(state, Handle(quits))
      modifies this
      ensures Valid() && state == Apply(old(state), Handle(quits))
      ensures activeChannelList == old(activeChannelList) && nextChannel == old(nextChannel) + 1
    {
      StepInv(state, Handle(quits));
      if activeChannelList[nextChannel] == WakeChannel {
        HandleWakeUpEvent();
      }
      if quits {
        quitFlag := true;
      }
      nextChannel := nextChannel + 1;
      state := Apply(state, Handle(quits));
    }

    method EndHandling()
      requires Valid() && Enabled(state, FinishHandling)
      modifies this
      ensures Valid() && state == Apply(old(state), FinishHandling)
    {
      StepInv(state, FinishHandling);
      eventHandlingFlag := false;
      state := Apply(state, FinishHandling);
    }

    method LockForSwap()
      requires Valid() && Enabled(state, LoopLock)
      modifies this
      ensures Valid() && state == Apply(old(state), LoopLock)
    {
      StepInv(state, LoopLock);
      mutexHolder := LoopThread;
      state := Apply(state, LoopLock);
    }

    method SwapAndUnlock()
      requires Valid() && Enabled(state, Swap)
      modifies this
      ensures Valid() && state == Apply(old(state), Swap)
      ensures functors == old(pendingFunctors) && nextFunctor == 0
    {
      StepInv(state, Swap);
      functors, nextFunctor := [], 0;
      functors, pendingFunctors := pendingFunctors, functors;
      mutexHolder := Free;
      state := Apply(state, Swap);
    }

    method RunFunctor(quits: bool)
      requires Valid() && Enabled(state, RunTask(quits))
      modifies this
      ensures Valid() && state == Apply(old(state), RunTask(quits))
      ensures functors == old(functors) && nextFunctor == old(nextFunctor) + 1
    {
      StepInv(state, RunTask(quits));
      if quits {
        quitFlag := true;
      }
      nextFunctor := nextFunctor + 1;
      state := Apply(state, RunTask(quits));
    }

    method EndFunctors()
      requires Valid() && Enabled(state, FinishBatch)
      modifies this
      ensures Valid() && state == Apply(old(state), FinishBatch)
    {
      StepInv(state, FinishBatch);
      state := Apply(state, FinishBatch);
    }

    // ---------------------------------------------------- the other threads

    method LockForPush(tid: Tid)
      requires Valid() && Enabled(state, Lock(tid))
      modifies this
      ensures Valid() && state == Apply(old(state), Lock(tid))
    {
      StepInv(state, Lock(tid));
      mutexHolder := Other(tid);
      state := Apply(state, Lock(tid));
    }

    method PushAndUnlock(tid: Tid, task: Task)
      requires Valid() && Enabled(state, Push(tid, task))
      modifies this
      ensures Valid() && state == Apply(old(state), Push(tid, task))
      ensures pendingFunctors == old(pendingFunctors) + [task]
    {
      StepInv(state, Push(tid, task));
      pendingFunctors := pendingFunctors + [task];
      mutexHolder := Free;
      state := Apply(state, Push(tid, task));
    }

    method QuitStores(tid: Tid)
      requires Valid() && Enabled(state, StoreQuit(tid))
      modifies this
      ensures Valid() && state == Apply(old(state), StoreQuit(tid))
    {
      StepInv(state, StoreQuit(tid));
      quitFlag := true;
      state := Apply(state, StoreQuit(tid));
    }

    /** A write that would overflow the eventfd fails and leaves it readable. */
    method Wakeup(tid: Tid)
      requires Valid() && Enabled(state, Wake(tid))
      modifies this
      ensures Valid() && state == Apply(old(state), Wake(tid))
      ensures wakeupCounter > 0
    {
      StepInv(state, Wake(tid));
      if wakeupCounter < EVENTFD_MAX {
        wakeupCounter := wakeupCounter + 1;
      }
      state := Apply(state, Wake(tid));
    }

    // ------------------------------------------------------------ the loops

    /** `DoPendingFunctors` left alone: everything queued runs, once and in order, and the queue is empty. */
    method DoPendingFunctors(quits: Task -> bool)
      requires Valid() && state.loop.Swapping? && mutexHolder == Free
      modifies this
      ensures Valid() && state.loop.CheckQuit? && mutexHolder == Free
      ensures state.executed == old(state.executed) + old(pendingFunctors)
      ensures pendingFunctors == [] && state.enqueued == old(state.enqueued)
      ensures wakeupCounter == old(wakeupCounter)
      ensures quitFlag <==> old(quitFlag) || Some(old(pendingFunctors), quits)
    {
      LockForSwap();
      SwapAndUnlock();
      while nextFunctor < |functors|
        invariant Valid() && state.loop.Running? && mutexHolder == Free
        invariant functors == old(pendingFunctors) && pendingFunctors == []
        invariant state.executed == old(state.executed) + functors[..nextFunctor]
        invariant state.enqueued == old(state.enqueued) && wakeupCounter == old(wakeupCounter)
        invariant quitFlag <==> old(quitFlag) || Some(functors[..nextFunctor], quits)
        decreases |functors| - nextFunctor
      {
        SomeSnoc(functors, nextFunctor, quits);
        FrontNext(functors, nextFunctor);
        RunFunctor(quits(functors[nextFunctor]));
      }
      assert functors[..nextFunctor] == functors;
      EndFunctors();
    }

    /** The handlers of one poll, left alone; the wakeup channel's takes the whole counter. */
    method HandleEvents(handlerQuits: Channel -> bool)
      requires Valid() && state.loop.Handling? && nextChannel == 0
      modifies this
      ensures Valid() && state.loop.Swapping?
      ensures mutexHolder == old(mutexHolder) && pendingFunctors == old(pendingFunctors)
      ensures state.executed == old(state.executed) && state.enqueued == old(state.enqueued)
      ensures wakeupCounter == if WakeChannel in old(activeChannelList) then 0 else old(wakeupCounter)
      ensures quitFlag <==> old(quitFlag) || Some(old(activeChannelList), handlerQuits)
    {
      while nextChannel < |activeChannelList|
        invariant Valid() && state.loop.Handling? && activeChannelList == old(activeChannelList)
        invariant mutexHolder == old(mutexHolder) && pendingFunctors == old(pendingFunctors)
        invariant state.executed == old(state.executed) && state.enqueued == old(state.enqueued)
        invariant wakeupCounter ==
                  if WakeChannel in activeChannelList[..nextChannel] then 0 else old(wakeupCounter)
        invariant quitFlag <==> old(quitFlag) || Some(activeChannelList[..nextChannel], handlerQuits)
        decreases |activeChannelList| - nextChannel
      {
        SomeSnoc(activeChannelList, nextChannel, handlerQuits);
        HandleEvent(handlerQuits(activeChannelList[nextChannel]));
      }
      assert activeChannelList[..nextChannel] == activeChannelList;
      EndHandling();
    }

    /**
     One turn of `Loop` left alone, from the poll to the loop condition: everything queued
     when the poll returned has run, once and in order, and the loop goes on to the next poll
     if and only if nobody has asked it to quit.
     */
    method Turn(ready: seq<Channel>, handlerQuits: Channel -> bool, callbackQuits: Task -> bool)
        returns (continues: bool)
      requires Valid() && mutexHolder == Free && state.loop.AtPoll?
      requires WakeChannel in ready ==> wakeupCounter > 0
      modifies this
      ensures Valid() && mutexHolder == Free
      ensures state.executed == old(state.executed) + old(pendingFunctors) && pendingFunctors == []
      ensures state.enqueued == old(state.enqueued)
      ensures wakeupCounter == if WakeChannel in ready then 0 else old(wakeupCounter)
      ensures quitFlag <==>
              old(quitFlag) || Some(ready, handlerQuits) || Some(old(pendingFunctors), callbackQuits)
      ensures continues <==> !quitFlag
      ensures if continues then state.loop.AtPoll? else state.loop.Exited?
    {
      PollReturns(ready);
      HandleEvents(handlerQuits);
      DoPendingFunctors(callbackQuits);
      continues := ContinueLoop();
    }

    /** A loop thread with nothing to do but poll, or one that has quit, and nobody else at work. */
    ghost predicate Quiet(continues: bool)
      reads this
    {
      && Valid() && mutexHolder == Free && pendingFunctors == []
      && (continues <==> !quitFlag)
      && if continues then state.loop.AtPoll? else state.loop.Exited?
    }

    /** Turns without anything queued: the loop goes on to the first one in which a handler quits. */
    method FurtherTurns(polls: nat -> seq<Channel>, handlerQuits: Channel -> bool, from: nat, ghost last: nat)
        returns (turns: nat)
      requires Quiet(true) && from <= last && Some(polls(last), handlerQuits)
      requires Pollable(polls, from, wakeupCounter)
      modifies this
      ensures Quiet(false) && state.executed == old(state.executed)
      ensures from < turns && Some(polls(turns - 1), handlerQuits)
      ensures forall i: nat | from <= i < turns - 1 :: !Some(polls(i), handlerQuits)
    {
      turns := from;
      var continues := true;
      while continues
        invariant Quiet(continues) && state.executed == old(state.executed)
        invariant from <= turns && (continues ==> turns <= last)
        invariant Pollable(polls, turns, wakeupCounter)
        invariant forall i: nat | from <= i < turns - 1 :: !Some(polls(i), handlerQuits)
        invariant from < turns ==> (continues <==> !Some(polls(turns - 1), handlerQuits))
        invariant from == turns ==> continues
        decreases if continues then last + 1 - turns else 0
      {
        ghost var counter := wakeupCounter;
        PollableLater(polls, turns, counter);
        continues := Turn(polls(turns), handlerQuits, t => false);
        turns := turns + 1;
      }
    }

    /**
     `Loop` left alone: a quit from before is forgotten, everything queued runs in the first
     turn, and the loop exits after the first turn in which a handler or callback quits.
     `polls` says what each poll returns.
     */
    method Loop(polls: nat -> seq<Channel>, handlerQuits: Channel -> bool, callbackQuits: Task -> bool,
                ghost last: nat) returns (turns: nat)
      requires Valid() && state.loop.NotStarted? && mutexHolder == Free
      requires forall i: nat | WakeChannel in polls(i) ::
                 wakeupCounter > 0 && forall j: nat | j < i :: WakeChannel !in polls(j)
      requires Some(polls(last), handlerQuits) || Some(pendingFunctors, callbackQuits)
      modifies this
      ensures Valid() && state.loop.Exited? && !loopFlag && pendingFunctors == []
      ensures state.executed == old(state.executed) + old(pendingFunctors)
      ensures turns > 0 && forall i: nat | i < turns - 1 :: !Some(polls(i), handlerQuits)
      ensures turns == 1 <==> Some(polls(0), handlerQuits) || Some(old(pendingFunctors), callbackQuits)
      ensures turns > 1 ==> Some(polls(turns - 1), handlerQuits)
    {
      BeginLoop();
      var continues := ContinueLoop();
      PollableLater(polls, 0, wakeupCounter);
      continues := Turn(polls(0), handlerQuits, callbackQuits);
      turns := 1;
      if continues {
        turns := FurtherTurns(polls, handlerQuits, 1, last);
      }
    }

    /**
     `QueueInLoop` among the other threads and the loop thread, whatever they do before the
     mutex is taken, while it is held, and between the push and the Wakeup: the callback is
     queued for good behind what was queued before, and when the call returns the loop
     thread is not asleep.
     */
    method QueueInLoop(tid: Tid, cb: Task, before: seq<Event>, locked: seq<Event>, between: seq<Event>)
      requires Valid() && Queues(state, tid, cb, before, locked, between)
      modifies this
      ensures Valid() && In(state, tid, Idle)
      ensures wakeupCounter > 0 && !(state.loop.AtPoll? && state.counter == 0)
      ensures old(state.enqueued) < state.enqueued && cb in state.enqueued[|old(state.enqueued)|..]
      ensures before == locked == between == [] ==>
                && pendingFunctors == old(pendingFunctors) + [cb] && mutexHolder == Free
                && state.loop == old(state.loop) && state.executed == old(state.executed)
                && quitFlag == old(quitFlag)
    {
      QueueDelivers(state, tid, cb, before, locked, between);
      Replay(before);
      LockForPush(tid);
      Replay(locked);
      PushAndUnlock(tid, cb);
      Replay(between);
      Wakeup(tid);
    }

    /**
     `Quit` by another thread, whatever happens between the store and the Wakeup: the loop
     thread is not asleep, and unless the loop was yet to start, the flag is set for good.
     */
    method Quit(tid: Tid, between: seq<Event>)
      requires Valid() && Quits(state, tid, between)
      modifies this
      ensures Valid() && In(state, tid, Idle)
      ensures wakeupCounter > 0 && !(state.loop.AtPoll? && state.counter == 0)
      ensures !old(state).loop.NotStarted? ==> quitFlag && !state.loop.NotStarted?
      ensures between == [] ==>
                && quitFlag && state.loop == old(state.loop) && pendingFunctors == old(pendingFunctors)
                && state.executed == old(state.executed) && mutexHolder == old(mutexHolder)
    {
      QuitStores(tid);
      if !state.loop.NotStarted? {
        QuittingRemains(state, between);
      }
      Replay(between);
      Wakeup(tid);
    }

    /** Any interleaving of the atomic sections is a run of the protocol, and the fields follow it. */
    method Replay(events: seq<Event>)
      requires Valid() && Possible(state, events)
      modifies this
      ensures Valid() && state == Reached(old(state), events)
    {
      var i := 0;
      while i < |events|
        invariant 0 <= i <= |events|
        invariant Valid() && Possible(state, events[i..])
        invariant Reached(state, events[i..]) == Reached(old(state), events)
      {
        assert events[i..][1..] == events[i + 1..];
        Section(events[i]);
        i := i + 1;
      }
    }

    method Section(e: Event)
      requires Valid() && Enabled(state, e)
      modifies this
      ensures Valid() && state == Apply(old(state), e)
    {
      match e
      case Start => BeginLoop();
      case TestQuit => var _ := ContinueLoop();
      case Poll(ready) => PollReturns(ready);
      case Handle(quits) => HandleEvent(quits);
      case FinishHandling => EndHandling();
      case LoopLock => LockForSwap();
      case Swap => SwapAndUnlock();
      case RunTask(quits) => RunFunctor(quits);
      case FinishBatch => EndFunctors();
      case Lock(t) => LockForPush(t);
      case Push(t, task) => PushAndUnlock(t, task);
      case StoreQuit(t) => QuitStores(t);
      case Wake(t) => Wakeup(t);
    }
  }
}
