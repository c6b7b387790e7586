/**
 `TimerSchedule` over a binary heap with the comparator of the source: `AddTimer`, and
 the loop of `HandleTimerQueue` with callbacks that may add timers while it runs.
 */
module TimerSchedules {
  import opened TimerRuns

  // --------------------------------------------------------- binary heaps

  function Parent(i: nat): nat
    requires i > 0
  {
    (i - 1) / 2
  }

  /** Entry `i` is not earlier than its parent. */
  predicate InPlace(h: seq<Timer>, i: nat) {
    0 < i < |h| ==> h[Parent(i)].expiration <= h[i].expiration
  }

  ghost predicate IsHeap(h: seq<Timer>) {
    forall i: nat :: InPlace(h, i)
  }

  /** The queue a heap stands for. */
  ghost function AsQueue(h: seq<Timer>): Queue {
    if h == [] then Empty else Queue(h[0], multiset(h[1..]))
  }

  lemma {:induction false} RootIsLeast(h: seq<Timer>, i: nat)
    requires IsHeap(h) && i < |h|
    ensures h[0].expiration <= h[i].expiration
  {
    if i > 0 {
      assert InPlace(h, i);
      RootIsLeast(h, Parent(i));
    }
  }

  lemma HeapIsQueue(h: seq<Timer>)
    requires IsHeap(h)
    ensures AsQueue(h).Valid()
    ensures AsQueue(h).Items() == multiset(h)
  {
    if h != [] {
      assert h == [h[0]] + h[1..];
      forall t | t in multiset(h[1..])
        ensures h[0].expiration <= t.expiration
      {
        var i :| 0 <= i < |h[1..]| && h[1..][i] == t;
        RootIsLeast(h, i + 1);
      }
    }
  }

  function Exchanged(h: seq<Timer>, i: nat, j: nat): (r: seq<Timer>)
    requires i < |h| && j < |h|
    ensures |r| == |h| && multiset(r) == multiset(h)
  {
    h[i := h[j]][j := h[i]]
  }

  /** The parent of entry `i` is not later than a child `k` of `i`. */
  predicate Spanned(h: seq<Timer>, i: nat, k: nat) {
    0 < i < |h| && 0 < k < |h| && Parent(k) == i ==> h[Parent(i)].expiration <= h[k].expiration
  }

  /** A heap but for the entry at `i`, which may be smaller than its parent. */
  ghost predicate HeapAbove(h: seq<Timer>, i: nat) {
    && (forall k: nat :: k != i ==> InPlace(h, k))
    && (forall k: nat :: Spanned(h, i, k))
  }

  /** A heap but for the entry at `i`, which may be larger than its children. */
  ghost predicate HeapBelow(h: seq<Timer>, i: nat) {
    && (forall k: nat :: k > 0 && Parent(k) != i ==> InPlace(h, k))
    && (forall k: nat :: Spanned(h, i, k))
  }

  lemma SiftUpStep(h: seq<Timer>, i: nat)
    requires 0 < i < |h| && HeapAbove(h, i) && h[i].expiration <= h[Parent(i)].expiration
    ensures HeapAbove(Exchanged(h, Parent(i), i), Parent(i))
  {
    var p := Parent(i);
    var r := Exchanged(h, p, i);
    forall k: nat
      ensures k != p ==> InPlace(r, k)
      ensures Spanned(r, p, k)
    {
      assert (k != i ==> InPlace(h, k)) && Spanned(h, i, k) && InPlace(h, p);
    }
  }

  lemma SiftUpDone(h: seq<Timer>, i: nat)
    requires HeapAbove(h, i) && InPlace(h, i)
    ensures IsHeap(h)
  {}

  lemma SiftDownStep(h: seq<Timer>, i: nat, child: nat)
    requires i < child < |h| && Parent(child) == i && HeapBelow(h, i)
    requires h[child].expiration <= h[i].expiration
    requires forall k: nat :: 0 < k < |h| && Parent(k) == i ==> h[child].expiration <= h[k].expiration
    ensures HeapBelow(Exchanged(h, i, child), child)
  {
    var r := Exchanged(h, i, child);
    forall k: nat
      ensures k > 0 && Parent(k) != child ==> InPlace(r, k)
      ensures Spanned(r, child, k)
    {
      assert (k > 0 && Parent(k) != i ==> InPlace(h, k)) && Spanned(h, i, k) && Spanned(h, i, child);
    }
  }

  lemma SiftDownDone(h: seq<Timer>, i: nat)
    requires HeapBelow(h, i)
    requires forall k: nat :: 0 < k < |h| && Parent(k) == i ==> h[i].expiration <= h[k].expiration
    ensures IsHeap(h)
  {}

  class PriorityQueue {
    var heap: seq<Timer>

    ghost predicate Valid()
      reads this
    {
      IsHeap(heap)
    }

    ghost function Contents(): Queue
      reads this
    {
      AsQueue(heap)
    }

    constructor ()
      ensures Valid() && Contents() == Empty
    {
      heap := [];
    }

    function Top(): (t: Timer)
      requires Valid() && heap != []
      reads this
      ensures t == Contents().top
      ensures forall u | u in heap :: t.expiration <= u.expiration
    {
      HeapIsQueue(heap);
      heap[0]
    }

    method Emplace(t: Timer)
      requires Valid()
      modifies this
      ensures Valid() && old(Contents()).Valid()
      ensures Contents() == old(Contents()).Push(t)
    {
      HeapIsQueue(heap);
      ghost var before := heap;
      var i := |heap|;
      heap := heap + [t];
      AppendedHeap(before, t);
      while i > 0 && heap[Parent(i)].expiration > heap[i].expiration
        invariant 0 <= i < |heap| && heap[i] == t && HeapAbove(heap, i)
        invariant multiset(heap) == multiset(before) + multiset{t}
        invariant i > 0 ==> before != [] && heap[0] == before[0]
        invariant i == 0 && before != [] ==> t.expiration < before[0].expiration
      {
        SiftUpStep(heap, i);
        heap := Exchanged(heap, Parent(i), i);
        i := Parent(i);
      }
      SiftUpDone(heap, i);
      if i > 0 {
        RootIsLeast(heap, i);
      }
      SameQueue(heap, AsQueue(before).Push(t));
    }

    method Pop()
      requires Valid() && heap != []
      modifies this
      ensures Valid() && old(Contents()).Pops(Contents())
    {
      ghost var before := heap;
      var last := heap[|heap| - 1];
      heap := heap[..|heap| - 1];
      assert before == heap + [last];
      if heap != [] {
        ReplaceRoot(before, heap, last);
        heap := heap[0 := last];
        SiftDown();
      }
      HeapIsQueue(heap);
    }

    /** Moves the root down past its smaller child until the heap is restored. */
    method SiftDown()
      requires heap != [] && HeapBelow(heap, 0)
      modifies this
      ensures Valid() && multiset(heap) == multiset(old(heap))
    {
      var i := 0;
      while 2 * i + 1 < |heap|
        invariant 0 <= i < |heap| && HeapBelow(heap, i)
        invariant multiset(heap) == multiset(old(heap))
        decreases |heap| - i
      {
        var child := 2 * i + 1;
        if child + 1 < |heap| && heap[child + 1].expiration < heap[child].expiration {
          child := child + 1;
        }
        LeastChild(heap, i, child);
        if heap[i].expiration <= heap[child].expiration {
          SiftDownDone(heap, i);
          return;
        }
        SiftDownStep(heap, i, child);
        heap := Exchanged(heap, i, child);
        i := child;
      }
      SiftDownDone(heap, i);
    }
  }

  lemma LeastChild(h: seq<Timer>, i: nat, child: nat)
    requires 0 < child < |h| && Parent(child) == i
    requires forall k | k == 2 * i + 1 || k == 2 * i + 2 :: k < |h| ==> h[child].expiration <= h[k].expiration
    ensures forall k: nat :: 0 < k < |h| && Parent(k) == i ==> h[child].expiration <= h[k].expiration
  {}

  lemma AppendedHeap(h: seq<Timer>, t: Timer)
    requires IsHeap(h)
    ensures HeapAbove(h + [t], |h|)
  {
    forall k: nat
      ensures k != |h| ==> InPlace(h + [t], k)
    {
      assert InPlace(h, k);
    }
  }

  lemma ReplaceRoot(before: seq<Timer>, front: seq<Timer>, last: Timer)
    requires IsHeap(before) && before == front + [last] && front != []
    ensures HeapBelow(front[0 := last], 0)
    ensures multiset(front[0 := last]) == multiset(before[1..])
  {
    var replaced, tail := front[0 := last], front[1..];
    forall k: nat
      ensures k > 0 && Parent(k) != 0 ==> InPlace(replaced, k)
    {
      assert InPlace(before, k);
    }
    assert replaced == [last] + tail;
    assert before[1..] == tail + [last];
  }

  lemma SameQueue(h: seq<Timer>, q: Queue)
    requires h != [] && q.Queue? && h[0] == q.top && multiset(h) == q.Items()
    ensures AsQueue(h) == q
  {
    assert h == [h[0]] + h[1..];
    assert multiset(h[1..]) == multiset(h) - multiset{h[0]};
    assert q.rest == q.Items() - multiset{q.top};
  }

  // ------------------------------------------------------------- schedule

  /** What happens in front of a pass and during it: timers added, the clock, and what callbacks add. */
  datatype Pass = Pass(adds: seq<Timer>, now: int, callbacks: seq<Timer> -> seq<Timer>)

  /** The callbacks only ever add timers that have not expired. */
  ghost predicate AddsLater(callbacks: seq<Timer> -> seq<Timer>, now: int) {
    forall history, t :: t in callbacks(history) ==> now <= t.expiration
  }

  /** The clock of the pass before, or the one in front of all of them. */
  function ClockBefore(clock: int, passes: seq<Pass>, i: nat): int
    requires i < |passes|
  {
    if i == 0 then clock else passes[i - 1].now
  }

  lemma {:induction false} AreTimely(clock: int, passes: seq<Pass>)
    requires forall i: nat | i < |passes| :: ClockBefore(clock, passes, i) <= passes[i].now
    requires forall i: nat, t | i < |passes| && t in passes[i].adds :: ClockBefore(clock, passes, i) <= t.expiration
    requires forall i: nat, history, t | i < |passes| && t in passes[i].callbacks(history) ::
               passes[i].now <= t.expiration
    ensures Timely(clock, passes)
    decreases |passes|
  {
    if passes != [] {
      var rest, now := passes[1..], passes[0].now;
      assert ClockBefore(clock, passes, 0) == clock;
      forall i: nat | i < |rest|
        ensures rest[i] == passes[i + 1] && ClockBefore(now, rest, i) == ClockBefore(clock, passes, i + 1)
      {}
      AreTimely(now, rest);
    }
  }

  /** A clock that never goes back, and nothing added that expires before the last one. */
  ghost predicate Timely(clock: int, passes: seq<Pass>)
    decreases |passes|
  {
    passes == [] ||
    (var p := passes[0];
     && clock <= p.now && AddsLater(p.callbacks, p.now)
     && (forall t | t in p.adds :: clock <= t.expiration)
     && Timely(p.now, passes[1..]))
  }

  class TimerSchedule {
    const timersQueue: PriorityQueue

    constructor ()
      ensures fresh(timersQueue) && timersQueue.Valid() && timersQueue.Contents() == Empty
    {
      timersQueue := new PriorityQueue();
    }

    method AddTimer(timer: Timer)
      requires timersQueue.Valid()
      modifies timersQueue
      ensures timersQueue.Valid() && old(timersQueue.Contents()).Valid()
      ensures timersQueue.Contents() == old(timersQueue.Contents()).Push(timer)
    {
      timersQueue.Emplace(timer);
    }

    /** The timers a callback adds, one call of `AddTimer` each. */
    method AddTimers(timers: seq<Timer>)
      requires timersQueue.Valid()
      modifies timersQueue
      ensures timersQueue.Valid() && old(timersQueue.Contents()).Valid()
      ensures timersQueue.Contents() == PushAll(old(timersQueue.Contents()), timers)
    {
      HeapIsQueue(timersQueue.heap);
      var i := 0;
      while i < |timers|
        invariant 0 <= i <= |timers|
        invariant timersQueue.Valid() && timersQueue.Contents().Valid()
        invariant PushAll(timersQueue.Contents(), timers[i..]) == PushAll(old(timersQueue.Contents()), timers)
      {
        assert timers[i..][1..] == timers[i + 1..];
        AddTimer(timers[i]);
        i := i + 1;
      }
    }

    /** The loop body: fires the top, whose callback may add timers, and pops the top there is then. */
    method FireTop(now: int, callbacks: seq<Timer> -> seq<Timer>, history: seq<Timer>)
      returns (fired: seq<Timer>, ghost r: Round)
      requires timersQueue.Valid() && timersQueue.heap != []
      requires timersQueue.Top().expiration < now
      modifies timersQueue
      ensures timersQueue.Valid()
      ensures r.Happens(now)
      ensures r.before == old(timersQueue.Contents()) && r.after == timersQueue.Contents()
      ensures fired == history + [r.fired] && r.added == callbacks(fired)
    {
      HeapIsQueue(timersQueue.heap);
      ghost var before := timersQueue.Contents();
      var timer := timersQueue.Top();
      fired := history + [timer];
      var added := callbacks(fired);
      AddTimers(added);
      ghost var filled := timersQueue.Contents();
      timersQueue.Pop();
      r := Round(before, timer, added, filled.top, timersQueue.Contents());
    }

    /**
     One pass. `callbacks` says what the callback of the timer fired last adds, given all
     firings of the pass so far. By `PassEndsIff` there is a `budget` exactly when
     the passes that can happen are bounded in length.
     */
    method HandleTimerQueue(now: int, callbacks: seq<Timer> -> seq<Timer>, ghost budget: nat)
      returns (fired: seq<Timer>, ghost rounds: seq<Round>)
      requires timersQueue.Valid()
      requires Bounded(timersQueue.Contents(), callbacks, now, budget)
      modifies timersQueue
      ensures timersQueue.Valid()
      ensures IsRun(old(timersQueue.Contents()), rounds, now)
      ensures Final(old(timersQueue.Contents()), rounds) == timersQueue.Contents()
      ensures Over(timersQueue.Contents(), now)
      ensures Fired(rounds) == fired
      ensures Answered(callbacks, rounds)
    {
      fired, rounds := [], [];
      ghost var start := timersQueue.Contents();
      HeapIsQueue(timersQueue.heap);
      while timersQueue.heap != [] && timersQueue.Top().expiration < now
        invariant timersQueue.Valid()
        invariant IsRun(start, rounds, now) && Final(start, rounds) == timersQueue.Contents()
        invariant Fired(rounds) == fired
        invariant Answered(callbacks, rounds)
        decreases TurnsLeft(timersQueue.Contents(), callbacks, fired, now, budget)
      {
        ghost var before, history := timersQueue.Contents(), fired;
        ghost var r;
        fired, r := FireTop(now, callbacks, fired);
        NextRound(start, rounds, r, now);
        NextAnswer(callbacks, rounds, r);
        BoundedAt(start, callbacks, now, budget, rounds + [r]);
        OneTurnLess(r, callbacks, history, now, budget);
        rounds := rounds + [r];
      }
    }

    /** The additions in front of a pass, and the pass. */
    method PassOnce(p: Pass) returns (fired: seq<Timer>, ghost e: Epoch)
      requires timersQueue.Valid() && AddsLater(p.callbacks, p.now)
      modifies timersQueue
      ensures timersQueue.Valid() && old(timersQueue.Contents()).Valid()
      ensures e.adds == p.adds && e.now == p.now && fired == Fired(e.rounds) && Answered(p.callbacks, e.rounds)
      ensures IsEpoch(old(timersQueue.Contents()), e, timersQueue.Contents())
    {
      AddTimers(p.adds);
      ghost var filled := timersQueue.Contents();
      HeapIsQueue(timersQueue.heap);
      LaterIsBounded(filled, p.callbacks, p.now);
      ghost var rounds;
      fired, rounds := HandleTimerQueue(p.now, p.callbacks, 0);
      e := Epoch(p.adds, p.now, rounds);
      AnsweredLater(p.callbacks, rounds, p.now);
      LateAddsAreClean(filled, rounds, p.now);
    }

    /**
     Any number of passes, with timers added in between and by the callbacks: a history in
     which everything that fires is in order, and nothing is lost or fires twice.
     */
    method Replay(passes: seq<Pass>, ghost clock: int) returns (fired: seq<Timer>, ghost epochs: seq<Epoch>)
      requires timersQueue.Valid()
      requires forall i: nat | i < |passes| :: ClockBefore(clock, passes, i) <= passes[i].now
      requires forall i: nat, t | i < |passes| && t in passes[i].adds :: ClockBefore(clock, passes, i) <= t.expiration
      requires forall i: nat, history, t | i < |passes| && t in passes[i].callbacks(history) ::
                 passes[i].now <= t.expiration
      requires AtLeast(timersQueue.Contents().Items(), clock)
      modifies timersQueue
      ensures timersQueue.Valid()
      ensures Answers(passes, epochs) && fired == AllFired(epochs)
      ensures IsHistory(old(timersQueue.Contents()), clock, epochs)
      ensures InOrder(fired)
      ensures old(timersQueue.Contents()).Items() + multiset(AllAdded(epochs)) ==
              multiset(fired) + timersQueue.Contents().Items()
    {
      AreTimely(clock, passes);
      fired, epochs := ReplayTimely(passes, clock);
    }

    method ReplayTimely(passes: seq<Pass>, ghost clock: int) returns (fired: seq<Timer>, ghost epochs: seq<Epoch>)
      requires timersQueue.Valid() && Timely(clock, passes)
      requires AtLeast(timersQueue.Contents().Items(), clock)
      modifies timersQueue
      ensures timersQueue.Valid()
      ensures Answers(passes, epochs) && fired == AllFired(epochs)
      ensures IsHistory(old(timersQueue.Contents()), clock, epochs)
      ensures InOrder(fired)
      ensures old(timersQueue.Contents()).Items() + multiset(AllAdded(epochs)) ==
              multiset(fired) + timersQueue.Contents().Items()
      decreases |passes|
    {
      ghost var start := timersQueue.Contents();
      HeapIsQueue(timersQueue.heap);
      if passes == [] {
        fired, epochs := [], [];
        return;
      }
      ghost var e, rest;
      fired, e := PassOnce(passes[0]);
      ghost var last := timersQueue.Contents();
      EpochDelivers(start, clock, e, last);
      var more;
      more, rest := ReplayTimely(passes[1..], passes[0].now);
      HistoryStep(start, clock, e, last, rest, timersQueue.Contents().Items());
      AnswersGrow(passes, e, rest);
      fired, epochs := fired + more, [e] + rest;
    }
  }

  /** A finished, clean pass over what was queued and added, and the queue it leaves. */
  ghost predicate IsEpoch(q: Queue, e: Epoch, left: Queue)
    requires q.Valid()
  {
    var filled := PushAll(q, e.adds);
    IsRun(filled, e.rounds, e.now) && AllClean(e.rounds) && left == Final(filled, e.rounds) && Over(left, e.now)
  }

  /** Every epoch is what its pass asked for. */
  ghost predicate Answers(passes: seq<Pass>, epochs: seq<Epoch>) {
    && |epochs| == |passes|
    && forall i | 0 <= i < |epochs| ::
         epochs[i].adds == passes[i].adds && epochs[i].now == passes[i].now
         && Answered(passes[i].callbacks, epochs[i].rounds)
  }

  lemma EpochDelivers(q: Queue, clock: int, e: Epoch, left: Queue)
    requires q.Valid() && IsEpoch(q, e, left) && AtLeast(q.Items(), clock)
    requires clock <= e.now && forall t | t in e.adds :: clock <= t.expiration
    ensures left.Valid() && AtLeast(left.Items(), e.now)
    ensures q.Items() + multiset(e.adds + Added(e.rounds)) == multiset(Fired(e.rounds)) + left.Items()
  {
    var filled := PushAll(q, e.adds);
    RoundsCount(filled, e.rounds, e.now);
    NothingLate(filled, e.rounds, e.now);
    ExactlyOnceIff(filled, e.rounds, e.now);
    Regroup(q.Items(), e.adds, Added(e.rounds));
  }

  /** A pass in front of a history. */
  lemma HistoryGrows(q: Queue, clock: int, e: Epoch, left: Queue, rest: seq<Epoch>)
    requires q.Valid() && IsEpoch(q, e, left) && IsHistory(left, e.now, rest)
    requires clock <= e.now && forall t | t in e.adds :: clock <= t.expiration
    ensures IsHistory(q, clock, [e] + rest)
    ensures AllFired([e] + rest) == Fired(e.rounds) + AllFired(rest)
    ensures AllAdded([e] + rest) == e.adds + Added(e.rounds) + AllAdded(rest)
  {
    assert ([e] + rest)[1..] == rest;
  }

  /** What a pass and the history behind it deliver together. */
  lemma HistoryStep(q: Queue, clock: int, e: Epoch, left: Queue, rest: seq<Epoch>, last: multiset<Timer>)
    requires q.Valid() && IsEpoch(q, e, left) && IsHistory(left, e.now, rest) && AtLeast(q.Items(), clock)
    requires clock <= e.now && forall t | t in e.adds :: clock <= t.expiration
    requires left.Items() + multiset(AllAdded(rest)) == multiset(AllFired(rest)) + last
    ensures var epochs := [e] + rest;
            && IsHistory(q, clock, epochs) && InOrder(AllFired(epochs))
            && AllFired(epochs) == Fired(e.rounds) + AllFired(rest)
            && q.Items() + multiset(AllAdded(epochs)) == multiset(AllFired(epochs)) + last
  {
    HistoryGrows(q, clock, e, left, rest);
    HistoryInOrder(q, clock, [e] + rest);
    EpochDelivers(q, clock, e, left);
    Accumulate(q.Items(), e, rest, left.Items(), last);
  }

  lemma AnswersGrow(passes: seq<Pass>, e: Epoch, rest: seq<Epoch>)
    requires passes != [] && Answers(passes[1..], rest)
    requires e.adds == passes[0].adds && e.now == passes[0].now && Answered(passes[0].callbacks, e.rounds)
    ensures Answers(passes, [e] + rest)
  {
    var epochs := [e] + rest;
    forall i | 0 <= i < |epochs|
      ensures epochs[i].adds == passes[i].adds && epochs[i].now == passes[i].now
      ensures Answered(passes[i].callbacks, epochs[i].rounds)
    {
      assert i > 0 ==> epochs[i] == rest[i - 1] && passes[i] == passes[1..][i - 1];
    }
  }

  lemma Accumulate(start: multiset<Timer>, e: Epoch, rest: seq<Epoch>, left: multiset<Timer>, last: multiset<Timer>)
    requires start + multiset(e.adds + Added(e.rounds)) == multiset(Fired(e.rounds)) + left
    requires left + multiset(AllAdded(rest)) == multiset(AllFired(rest)) + last
    ensures start + multiset(e.adds + Added(e.rounds) + AllAdded(rest)) ==
            multiset(Fired(e.rounds) + AllFired(rest)) + last
  {
    Chain(start, multiset(e.adds + Added(e.rounds)), multiset(Fired(e.rounds)), left,
          multiset(AllAdded(rest)), multiset(AllFired(rest)), last);
  }

  lemma {:induction false} NoLateAdds(callbacks: seq<Timer> -> seq<Timer>, fired: seq<Timer>, now: int)
    requires AddsLater(callbacks, now)
    ensures LateAdds(callbacks, fired, now) == 0
    decreases |fired|
  {
    if fired != [] {
      NoLateAdds(callbacks, fired[..|fired| - 1], now);
      NoneLate(callbacks(fired), now);
    }
  }

  lemma {:induction false} AnsweredLater(callbacks: seq<Timer> -> seq<Timer>, rounds: seq<Round>, now: int)
    requires AddsLater(callbacks, now) && Answered(callbacks, rounds)
    ensures forall t | t in Added(rounds) :: now <= t.expiration
    decreases |rounds|
  {
    if rounds != [] {
      var n := |rounds| - 1;
      assert rounds == rounds[..n] + [rounds[n]];
      AnsweredLater(callbacks, rounds[..n], now);
      ExtendAdded(rounds[..n], rounds[n]);
    }
  }

  lemma LaterIsBounded(q: Queue, callbacks: seq<Timer> -> seq<Timer>, now: int)
    requires AddsLater(callbacks, now)
    ensures Bounded(q, callbacks, now, 0)
  {
    forall rounds | IsRun(q, rounds, now) && Answered(callbacks, rounds)
      ensures LateAdds(callbacks, Fired(rounds), now) <= 0
    {
      NoLateAdds(callbacks, Fired(rounds), now);
    }
  }

  /** Expired timers queued or still to be added. */
  ghost function TurnsLeft(q: Queue, callbacks: seq<Timer> -> seq<Timer>, fired: seq<Timer>, now: int, budget: nat): int {
    Late(q.Items(), now) + budget - LateAdds(callbacks, fired, now)
  }

  lemma OneTurnLess(r: Round, callbacks: seq<Timer> -> seq<Timer>, history: seq<Timer>, now: int, budget: nat)
    requires r.Happens(now) && r.added == callbacks(history + [r.fired])
    requires LateAdds(callbacks, history + [r.fired], now) <= budget
    ensures 0 <= TurnsLeft(r.after, callbacks, history + [r.fired], now, budget)
              < TurnsLeft(r.before, callbacks, history, now, budget)
  {
    RoundCounts(r, now);
    LateNonNegative(r.after.Items(), now);
    assert (history + [r.fired])[..|history|] == history;
  }
}
