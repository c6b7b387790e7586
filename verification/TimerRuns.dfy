/**
 What the loop of `TimerSchedule::HandleTimerQueue` does over whole passes, for any
 callbacks: each round fires the top of the queue, lets the callback add timers, and
 only then pops whatever is on top.
 */
module TimerRuns {
  import opened Sequences

  datatype Timer = Timer(id: nat, expiration: int)

  // -------------------------------------------------- sums over multisets

  ghost function Sum(m: multiset<Timer>, f: Timer -> int): int {
    if m == multiset{} then 0
    else
      var t :| t in m;
      f(t) + Sum(m - multiset{t}, f)
  }

  /** The element the sum takes first. */
  lemma FirstSummand(m: multiset<Timer>, f: Timer -> int) returns (t: Timer)
    requires m != multiset{}
    ensures t in m && Sum(m, f) == f(t) + Sum(m - multiset{t}, f)
  {
    t :| t in m && Sum(m, f) == f(t) + Sum(m - multiset{t}, f);
  }

  lemma {:induction false} SumAdd(m: multiset<Timer>, t: Timer, f: Timer -> int)
    ensures Sum(m + multiset{t}, f) == Sum(m, f) + f(t)
    decreases |m|
  {
    var u := FirstSummand(m + multiset{t}, f);
    if u == t {
      assert m + multiset{t} - multiset{u} == m;
    } else {
      var less := m - multiset{u};
      Exchange(m, t, u);
      SumAdd(less, t, f);
      SumAdd(less, u, f);
    }
  }

  lemma Exchange(m: multiset<Timer>, t: Timer, u: Timer)
    requires u in m && u != t
    ensures m + multiset{t} - multiset{u} == (m - multiset{u}) + multiset{t}
    ensures (m - multiset{u}) + multiset{u} == m
  {}

  function SumOf(ts: seq<Timer>, f: Timer -> int): int {
    if ts == [] then 0 else f(ts[0]) + SumOf(ts[1..], f)
  }

  lemma {:induction false} SumAddAll(m: multiset<Timer>, ts: seq<Timer>, f: Timer -> int)
    ensures Sum(m + multiset(ts), f) == Sum(m, f) + SumOf(ts, f)
    decreases |ts|
  {
    if ts == [] {
      assert m + multiset(ts) == m;
    } else {
      assert ts == [ts[0]] + ts[1..];
      assert m + multiset(ts) == m + multiset{ts[0]} + multiset(ts[1..]);
      SumAddAll(m + multiset{ts[0]}, ts[1..], f);
      SumAdd(m, ts[0], f);
    }
  }

  function LateAt(now: int): Timer -> int {
    (t: Timer) => if t.expiration < now then 1 else 0
  }

  /** How many timers have expired before `now`. */
  ghost function Late(m: multiset<Timer>, now: int): int { Sum(m, LateAt(now)) }

  lemma {:induction false} LateNonNegative(m: multiset<Timer>, now: int)
    ensures Late(m, now) >= 0
    ensures Late(m, now) == 0 <==> forall t | t in m :: now <= t.expiration
    decreases |m|
  {
    if m != multiset{} {
      var t :| t in m && Sum(m, LateAt(now)) == LateAt(now)(t) + Sum(m - multiset{t}, LateAt(now));
      LateNonNegative(m - multiset{t}, now);
      assert forall u | u in m :: u == t || u in m - multiset{t};
    }
  }

  // -------------------------------------------------------- the queue

  /** A priority queue as its users see it: a least timer on top, and the others. */
  datatype Queue = Empty | Queue(top: Timer, rest: multiset<Timer>) {

    function Items(): multiset<Timer> {
      if Empty? then multiset{} else rest + multiset{top}
    }

    predicate Valid() {
      Queue? ==> forall t | t in rest :: top.expiration <= t.expiration
    }

    /** Adding a timer changes the top only when the new one expires strictly earlier. */
    function Push(t: Timer): (q: Queue)
      requires Valid()
      ensures q.Valid() && q.Queue? && q.Items() == Items() + multiset{t}
    {
      if Empty? then Queue(t, multiset{})
      else if t.expiration < top.expiration then Queue(t, rest + multiset{top})
      else Queue(top, rest + multiset{t})
    }

    /** Removing the top may bring any least one of the others up. */
    ghost predicate Pops(q: Queue) {
      Queue? && q.Valid() && q.Items() == rest
    }
  }

  function PushAll(q: Queue, ts: seq<Timer>): (r: Queue)
    requires q.Valid()
    ensures r.Valid() && r.Items() == q.Items() + multiset(ts)
    ensures q.Queue? ==> r.Queue?
    decreases |ts|
  {
    if ts == [] then q
    else
      assert ts == [ts[0]] + ts[1..];
      PushAll(q.Push(ts[0]), ts[1..])
  }

  /** No added timer expires before the one that fires. */
  predicate NoneEarlier(fired: Timer, added: seq<Timer>) {
    forall t | t in added :: fired.expiration <= t.expiration
  }

  /** The top survives exactly the additions that are not earlier; otherwise something strictly earlier takes its place. */
  lemma {:induction false} TopAfterPushes(q: Queue, ts: seq<Timer>)
    requires q.Valid() && q.Queue?
    ensures NoneEarlier(q.top, ts) ==> PushAll(q, ts).top == q.top
    ensures !NoneEarlier(q.top, ts) ==> PushAll(q, ts).top.expiration < q.top.expiration
    decreases |ts|
  {
    if ts != [] {
      var next := q.Push(ts[0]);
      TopAfterPushes(next, ts[1..]);
      assert forall t | t in ts :: t == ts[0] || t in ts[1..];
      assert forall t | t in ts[1..] :: t in ts;
    }
  }

  // ----------------------------------------------------------- rounds

  /** One round of the loop: what fired, what its callback added, what was popped. */
  datatype Round = Round(before: Queue, fired: Timer, added: seq<Timer>, popped: Timer, after: Queue) {

    ghost predicate Happens(now: int) {
      && before.Queue? && before.Valid()
      && fired == before.top && fired.expiration < now
      && var filled := PushAll(before, added);
      && popped == filled.top
      && filled.Pops(after)
    }

    /** The callback added nothing earlier than the timer that called it. */
    predicate Clean() {
      NoneEarlier(fired, added)
    }
  }

  /** Round `i` happens, on the queue the one before it left. */
  ghost predicate HappensAt(q: Queue, rounds: seq<Round>, now: int, i: nat)
    requires i < |rounds|
  {
    rounds[i].Happens(now) && rounds[i].before == if i == 0 then q else rounds[i - 1].after
  }

  /** Rounds of one pass, one after the other, from queue `q`. */
  ghost predicate IsRun(q: Queue, rounds: seq<Round>, now: int) {
    q.Valid() && forall i: nat | i < |rounds| :: HappensAt(q, rounds, now, i)
  }

  function Final(q: Queue, rounds: seq<Round>): Queue {
    if rounds == [] then q else rounds[|rounds| - 1].after
  }

  /** The loop condition is false. */
  predicate Over(q: Queue, now: int) {
    q.Queue? ==> now <= q.top.expiration
  }

  function Fired(rounds: seq<Round>): seq<Timer> {
    if rounds == [] then [] else [rounds[0].fired] + Fired(rounds[1..])
  }

  function Popped(rounds: seq<Round>): seq<Timer> {
    if rounds == [] then [] else [rounds[0].popped] + Popped(rounds[1..])
  }

  function Added(rounds: seq<Round>): seq<Timer> {
    if rounds == [] then [] else rounds[0].added + Added(rounds[1..])
  }

  predicate AllClean(rounds: seq<Round>) {
    rounds == [] || (rounds[0].Clean() && AllClean(rounds[1..]))
  }

  /** The pop of a round removes the timer just fired exactly when its callback added nothing earlier. */
  lemma PopRemovesFired(r: Round, now: int)
    requires r.Happens(now)
    ensures r.popped == r.fired <==> r.Clean()
    ensures r.popped.expiration <= r.fired.expiration
    ensures r.popped.expiration == r.fired.expiration <==> r.Clean()
  {
    TopAfterPushes(r.before, r.added);
  }

  lemma RoundConserves(r: Round, now: int)
    requires r.Happens(now)
    ensures r.before.Items() + multiset(r.added) == multiset{r.popped} + r.after.Items()
  {}

  /** The first round of a run, and the run that follows it. */
  lemma FirstRound(q: Queue, rounds: seq<Round>, now: int)
    requires IsRun(q, rounds, now) && rounds != []
    ensures rounds[0].before == q && rounds[0].Happens(now)
    ensures IsRun(rounds[0].after, rounds[1..], now)
    ensures Final(q, rounds) == Final(rounds[0].after, rounds[1..])
  {
    assert HappensAt(q, rounds, now, 0);
    forall i: nat | i < |rounds[1..]|
      ensures HappensAt(rounds[0].after, rounds[1..], now, i)
    {
      assert HappensAt(q, rounds, now, i + 1);
    }
  }

  /** What is popped and what is left are what was queued and what was added, in every run. */
  lemma {:induction false} PopsConserve(q: Queue, rounds: seq<Round>, now: int)
    requires IsRun(q, rounds, now)
    ensures q.Items() + multiset(Added(rounds)) == multiset(Popped(rounds)) + Final(q, rounds).Items()
    decreases |rounds|
  {
    if rounds != [] {
      var r, rest := rounds[0], rounds[1..];
      FirstRound(q, rounds, now);
      PopsConserve(r.after, rest, now);
      RoundConserves(r, now);
      Chain(q.Items(), multiset(r.added), multiset{r.popped}, r.after.Items(),
            multiset(Added(rest)), multiset(Popped(rest)), Final(q, rounds).Items());
    }
  }

  lemma Chain(a: multiset<Timer>, b: multiset<Timer>, c: multiset<Timer>, d: multiset<Timer>,
              e: multiset<Timer>, f: multiset<Timer>, g: multiset<Timer>)
    requires a + b == c + d && d + e == f + g
    ensures a + (b + e) == (c + f) + g
  {
    assert a + (b + e) == (a + b) + e;
    assert c + (d + e) == (c + d) + e;
    assert c + (f + g) == (c + f) + g;
  }

  lemma {:induction false} PoppedNeverLater(q: Queue, rounds: seq<Round>, now: int)
    requires IsRun(q, rounds, now)
    ensures SumOf(Popped(rounds), Expiration()) <= SumOf(Fired(rounds), Expiration())
    ensures SumOf(Popped(rounds), Expiration()) == SumOf(Fired(rounds), Expiration()) ==> AllClean(rounds)
    ensures AllClean(rounds) ==> Popped(rounds) == Fired(rounds)
    decreases |rounds|
  {
    if rounds != [] {
      FirstRound(q, rounds, now);
      PoppedNeverLater(rounds[0].after, rounds[1..], now);
      PopRemovesFired(rounds[0], now);
    }
  }

  function Expiration(): Timer -> int {
    (t: Timer) => t.expiration
  }

  /**
   Each timer fires exactly once, and none is lost, exactly when no callback adds a timer
   that expires before the one just firing: otherwise some timer is removed unfired and
   another fires again.
   */
  lemma ExactlyOnceIff(q: Queue, rounds: seq<Round>, now: int)
    requires IsRun(q, rounds, now)
    ensures q.Items() + multiset(Added(rounds)) == multiset(Fired(rounds)) + Final(q, rounds).Items()
       <==> AllClean(rounds)
  {
    PopsConserve(q, rounds, now);
    PoppedNeverLater(q, rounds, now);
    var fired, popped := multiset(Fired(rounds)), multiset(Popped(rounds));
    if q.Items() + multiset(Added(rounds)) == fired + Final(q, rounds).Items() {
      Cancel(fired, popped, Final(q, rounds).Items());
      SumOfMultiset(Fired(rounds), Expiration());
      SumOfMultiset(Popped(rounds), Expiration());
    }
  }

  lemma Cancel(a: multiset<Timer>, b: multiset<Timer>, c: multiset<Timer>)
    requires a + c == b + c
    ensures a == b
  {
    assert a + c - c == a && b + c - c == b;
  }

  lemma SumOfMultiset(ts: seq<Timer>, f: Timer -> int)
    ensures Sum(multiset(ts), f) == SumOf(ts, f)
  {
    SumAddAll(multiset{}, ts, f);
    assert multiset{} + multiset(ts) == multiset(ts);
  }

  lemma RoundCounts(r: Round, now: int)
    requires r.Happens(now)
    ensures 1 + Late(r.after.Items(), now) == Late(r.before.Items(), now) + SumOf(r.added, LateAt(now))
  {
    RoundConserves(r, now);
    PopRemovesFired(r, now);
    SumAddAll(r.before.Items(), r.added, LateAt(now));
    SumAdd(r.after.Items(), r.popped, LateAt(now));
    assert r.after.Items() + multiset{r.popped} == r.before.Items() + multiset(r.added);
  }

  lemma {:induction false} RoundsCount(q: Queue, rounds: seq<Round>, now: int)
    requires IsRun(q, rounds, now)
    ensures |rounds| + Late(Final(q, rounds).Items(), now) == Late(q.Items(), now) + SumOf(Added(rounds), LateAt(now))
    ensures Final(q, rounds).Valid()
    decreases |rounds|
  {
    if rounds != [] {
      FirstRound(q, rounds, now);
      RoundsCount(rounds[0].after, rounds[1..], now);
      RoundCounts(rounds[0], now);
      SumOfConcat(rounds[0].added, Added(rounds[1..]), LateAt(now));
    }
  }

  /**
   When a pass ends: after exactly as many rounds as timers had expired at entry plus
   expired ones added meanwhile, for any callbacks.
   */
  lemma PassLength(q: Queue, rounds: seq<Round>, now: int)
    requires IsRun(q, rounds, now)
    ensures |rounds| <= Late(q.Items(), now) + SumOf(Added(rounds), LateAt(now))
    ensures Over(Final(q, rounds), now) <==> |rounds| == Late(q.Items(), now) + SumOf(Added(rounds), LateAt(now))
  {
    RoundsCount(q, rounds, now);
    OverIffNoneLate(Final(q, rounds), now);
  }

  lemma OverIffNoneLate(q: Queue, now: int)
    requires q.Valid()
    ensures Over(q, now) <==> Late(q.Items(), now) == 0
    ensures Late(q.Items(), now) >= 0
  {
    LateNonNegative(q.Items(), now);
    assert q.Queue? ==> q.top in q.Items();
  }

  lemma {:induction false} SumOfConcat(xs: seq<Timer>, ys: seq<Timer>, f: Timer -> int)
    ensures SumOf(xs + ys, f) == SumOf(xs, f) + SumOf(ys, f)
  {
    if xs == [] {
      assert xs + ys == ys;
    } else {
      assert (xs + ys)[1..] == xs[1..] + ys;
      SumOfConcat(xs[1..], ys, f);
    }
  }

  /** Each round's callback added what `callbacks` says for the firings up to it. */
  ghost predicate Answered(callbacks: seq<Timer> -> seq<Timer>, rounds: seq<Round>) {
    if rounds == [] then true
    else
      var n := |rounds| - 1;
      Answered(callbacks, rounds[..n]) && rounds[n].added == callbacks(Fired(rounds))
  }

  /** A run extended by one round. */
  lemma NextRound(q: Queue, rounds: seq<Round>, r: Round, now: int)
    requires IsRun(q, rounds, now) && r.before == Final(q, rounds) && r.Happens(now)
    ensures IsRun(q, rounds + [r], now)
    ensures Fired(rounds + [r]) == Fired(rounds) + [r.fired]
    ensures Final(q, rounds + [r]) == r.after
  {
    var longer := rounds + [r];
    forall i: nat | i < |longer|
      ensures HappensAt(q, longer, now, i)
    {
      assert i < |rounds| ==> HappensAt(q, rounds, now, i);
    }
    ExtendFired(rounds, r);
  }

  lemma NextAnswer(callbacks: seq<Timer> -> seq<Timer>, rounds: seq<Round>, r: Round)
    requires Answered(callbacks, rounds) && r.added == callbacks(Fired(rounds) + [r.fired])
    ensures Answered(callbacks, rounds + [r])
  {
    FrontOfSnoc(rounds, r);
    ExtendFired(rounds, r);
  }

  lemma {:induction false} ExtendFired(rounds: seq<Round>, r: Round)
    ensures Fired(rounds + [r]) == Fired(rounds) + [r.fired]
  {
    var longer := rounds + [r];
    if rounds == [] {
      assert longer[1..] == [];
    } else {
      ExtendFired(rounds[1..], r);
      TailOfConcat(rounds, [r]);
    }
  }

  lemma {:induction false} ExtendAdded(rounds: seq<Round>, r: Round)
    ensures Added(rounds + [r]) == Added(rounds) + r.added
  {
    var longer := rounds + [r];
    if rounds == [] {
      EmptyConcat(rounds, [r]);
      assert longer[1..] == [];
    } else {
      ExtendAdded(rounds[1..], r);
      TailOfConcat(rounds, [r]);
      Assoc(rounds[0].added, Added(rounds[1..]), r.added);
    }
  }

  // ------------------------------------------------------- when a pass ends

  /** Expired timers the callbacks of a firing history have added. */
  function LateAdds(callbacks: seq<Timer> -> seq<Timer>, fired: seq<Timer>, now: int): int {
    if fired == [] then 0
    else LateAdds(callbacks, fired[..|fired| - 1], now) + SumOf(callbacks(fired), LateAt(now))
  }

  /** In no pass that can happen do the callbacks add more than `budget` expired timers. */
  ghost predicate Bounded(q: Queue, callbacks: seq<Timer> -> seq<Timer>, now: int, budget: nat) {
    forall rounds | IsRun(q, rounds, now) && Answered(callbacks, rounds) ::
      LateAdds(callbacks, Fired(rounds), now) <= budget
  }

  /** No pass that can happen has more than `n` rounds. */
  ghost predicate Ends(q: Queue, callbacks: seq<Timer> -> seq<Timer>, now: int, n: nat) {
    forall rounds | IsRun(q, rounds, now) && Answered(callbacks, rounds) :: |rounds| <= n
  }

  lemma BoundedAt(q: Queue, callbacks: seq<Timer> -> seq<Timer>, now: int, budget: nat, rounds: seq<Round>)
    requires Bounded(q, callbacks, now, budget) && IsRun(q, rounds, now) && Answered(callbacks, rounds)
    ensures LateAdds(callbacks, Fired(rounds), now) <= budget
  {}

  lemma {:induction false} AnsweredLateAdds(callbacks: seq<Timer> -> seq<Timer>, rounds: seq<Round>, now: int)
    requires Answered(callbacks, rounds)
    ensures SumOf(Added(rounds), LateAt(now)) == LateAdds(callbacks, Fired(rounds), now)
    decreases |rounds|
  {
    if rounds != [] {
      var n := |rounds| - 1;
      var front, r := rounds[..n], rounds[n];
      assert rounds == front + [r];
      AnsweredLateAdds(callbacks, front, now);
      ExtendFired(front, r);
      ExtendAdded(front, r);
      FrontOfSnoc(Fired(front), r.fired);
      SumOfConcat(Added(front), r.added, LateAt(now));
    }
  }

  /** Some queue is left by a pop. */
  lemma SomePop(q: Queue) returns (left: Queue)
    requires q.Queue? && q.Valid()
    ensures q.Pops(left)
  {
    if q.rest == multiset{} {
      left := Empty;
    } else {
      var t := Least(q.rest);
      left := Queue(t, q.rest - multiset{t});
      assert forall u | u in left.rest :: u in q.rest;
    }
  }

  lemma {:induction false} Least(m: multiset<Timer>) returns (t: Timer)
    requires m != multiset{}
    ensures t in m && forall u | u in m :: t.expiration <= u.expiration
    decreases |m|
  {
    var s :| s in m;
    var less := m - multiset{s};
    assert forall v | v in m :: v == s || v in less;
    t := s;
    if less != multiset{} {
      var u := Least(less);
      if u.expiration < s.expiration {
        t := u;
      }
    }
  }

  lemma {:induction false} SumOfLate(ts: seq<Timer>, now: int)
    ensures SumOf(ts, LateAt(now)) >= 0
  {
    if ts != [] {
      SumOfLate(ts[1..], now);
    }
  }

  /** A run that is not over goes on, and one round takes away at most one expired timer. */
  lemma OneRoundMore(q: Queue, callbacks: seq<Timer> -> seq<Timer>, now: int, rounds: seq<Round>)
      returns (r: Round)
    requires IsRun(q, rounds, now) && Answered(callbacks, rounds) && Late(Final(q, rounds).Items(), now) > 0
    ensures IsRun(q, rounds + [r], now) && Answered(callbacks, rounds + [r])
    ensures Late(Final(q, rounds + [r]).Items(), now) >= Late(Final(q, rounds).Items(), now) - 1
  {
    var before := Final(q, rounds);
    RoundsCount(q, rounds, now);
    OverIffNoneLate(before, now);
    var added := callbacks(Fired(rounds) + [before.top]);
    var filled := PushAll(before, added);
    var left := SomePop(filled);
    r := Round(before, before.top, added, filled.top, left);
    NextRound(q, rounds, r, now);
    NextAnswer(callbacks, rounds, r);
    RoundCounts(r, now);
    SumOfLate(added, now);
  }

  /** A run goes on for at least as many rounds as timers have expired when it gets there. */
  lemma {:induction false} GoesOn(q: Queue, callbacks: seq<Timer> -> seq<Timer>, now: int, rounds: seq<Round>, k: nat)
      returns (longer: seq<Round>)
    requires IsRun(q, rounds, now) && Answered(callbacks, rounds) && k <= Late(Final(q, rounds).Items(), now)
    ensures IsRun(q, longer, now) && Answered(callbacks, longer) && |longer| == |rounds| + k
    decreases k
  {
    if k == 0 {
      longer := rounds;
    } else {
      var r := OneRoundMore(q, callbacks, now, rounds);
      longer := GoesOn(q, callbacks, now, rounds + [r], k - 1);
    }
  }

  /**
   Which callbacks a pass comes to an end with: those that add boundedly many expired
   timers in the passes that can happen, and no others.
   */
  lemma PassEndsIff(q: Queue, callbacks: seq<Timer> -> seq<Timer>, now: int)
    requires q.Valid()
    ensures (exists budget: nat :: Bounded(q, callbacks, now, budget))
       <==> (exists n: nat :: Ends(q, callbacks, now, n))
  {
    LateNonNegative(q.Items(), now);
    forall budget: nat | Bounded(q, callbacks, now, budget)
      ensures Ends(q, callbacks, now, Late(q.Items(), now) + budget)
    {
      BoundedEnds(q, callbacks, now, budget);
    }
    forall n: nat | Ends(q, callbacks, now, n)
      ensures Bounded(q, callbacks, now, n)
    {
      EndsBounded(q, callbacks, now, n);
    }
  }

  lemma BoundedEnds(q: Queue, callbacks: seq<Timer> -> seq<Timer>, now: int, budget: nat)
    requires Bounded(q, callbacks, now, budget)
    ensures Late(q.Items(), now) >= 0
    ensures Ends(q, callbacks, now, Late(q.Items(), now) + budget)
  {
    LateNonNegative(q.Items(), now);
    forall rounds | IsRun(q, rounds, now) && Answered(callbacks, rounds)
      ensures |rounds| <= Late(q.Items(), now) + budget
    {
      BoundedAt(q, callbacks, now, budget, rounds);
      AnsweredLateAdds(callbacks, rounds, now);
      PassLength(q, rounds, now);
    }
  }

  lemma EndsBounded(q: Queue, callbacks: seq<Timer> -> seq<Timer>, now: int, n: nat)
    requires Ends(q, callbacks, now, n)
    ensures Bounded(q, callbacks, now, n)
  {
    forall rounds | IsRun(q, rounds, now) && Answered(callbacks, rounds)
      ensures LateAdds(callbacks, Fired(rounds), now) <= n
    {
      var left := Final(q, rounds).Items();
      LateNonNegative(left, now);
      LateNonNegative(q.Items(), now);
      var longer := GoesOn(q, callbacks, now, rounds, Late(left, now));
      assert |longer| <= n;
      AnsweredLateAdds(callbacks, rounds, now);
      RoundsCount(q, rounds, now);
    }
  }

  // ---------------------------------------------------------- firing order

  predicate InOrder(ts: seq<Timer>) {
    forall i, j | 0 <= i < j < |ts| :: ts[i].expiration <= ts[j].expiration
  }

  ghost predicate AtLeast(m: multiset<Timer>, low: int) {
    forall t | t in m :: low <= t.expiration
  }

  /** After a clean round nothing queued is earlier than what fired. */
  lemma CleanRound(r: Round, now: int)
    requires r.Happens(now) && r.Clean()
    ensures AtLeast(r.after.Items(), r.fired.expiration)
    ensures r.fired in r.before.Items()
  {
    RoundConserves(r, now);
    forall t | t in r.after.Items()
      ensures r.fired.expiration <= t.expiration
    {
      assert t in multiset{r.popped} + r.after.Items();
      assert t in r.before.Items() + multiset(r.added);
    }
  }

  lemma CleanFirstRound(q: Queue, rounds: seq<Round>, now: int)
    requires IsRun(q, rounds, now) && AllClean(rounds) && rounds != []
    ensures var r := rounds[0];
            && IsRun(r.after, rounds[1..], now) && AllClean(rounds[1..])
            && Final(q, rounds) == Final(r.after, rounds[1..])
            && r.fired in q.Items() && r.fired.expiration < now
            && AtLeast(r.after.Items(), r.fired.expiration)
  {
    FirstRound(q, rounds, now);
    CleanRound(rounds[0], now);
  }

  /** Clean rounds fire in nondecreasing order of expiration, and never before a timer's time. */
  lemma {:induction false} FiresInOrder(q: Queue, rounds: seq<Round>, now: int, low: int)
    requires IsRun(q, rounds, now) && AllClean(rounds) && AtLeast(q.Items(), low)
    ensures InOrder(Fired(rounds))
    ensures forall t | t in Fired(rounds) :: low <= t.expiration < now
    ensures AtLeast(Final(q, rounds).Items(), low)
    decreases |rounds|
  {
    if rounds != [] {
      var r := rounds[0];
      CleanFirstRound(q, rounds, now);
      FiresInOrder(r.after, rounds[1..], now, r.fired.expiration);
      InOrderCons(r.fired, Fired(rounds[1..]));
    }
  }

  lemma InOrderCons(t: Timer, ts: seq<Timer>)
    requires InOrder(ts) && forall u | u in ts :: t.expiration <= u.expiration
    ensures InOrder([t] + ts)
  {}

  lemma {:induction false} LateAddsAreClean(q: Queue, rounds: seq<Round>, now: int)
    requires IsRun(q, rounds, now)
    requires forall t | t in Added(rounds) :: now <= t.expiration
    ensures AllClean(rounds) && SumOf(Added(rounds), LateAt(now)) == 0
    decreases |rounds|
  {
    if rounds != [] {
      var r, rest := rounds[0], rounds[1..];
      FirstRound(q, rounds, now);
      MembersOfConcat(r.added, Added(rest));
      LateAddsAreClean(r.after, rest, now);
      assert SumOf(Added(rounds), LateAt(now)) == 0 by {
        SumOfConcat(r.added, Added(rest), LateAt(now));
        NoneLate(r.added, now);
      }
    }
  }

  lemma MembersOfConcat(xs: seq<Timer>, ys: seq<Timer>)
    ensures forall t | t in xs :: t in xs + ys
    ensures forall t | t in ys :: t in xs + ys
  {}

  lemma {:induction false} NoneLate(ts: seq<Timer>, now: int)
    requires forall t | t in ts :: now <= t.expiration
    ensures SumOf(ts, LateAt(now)) == 0
  {
    if ts != [] {
      NoneLate(ts[1..], now);
    }
  }

  /** `part` is the part of `all` that expires before `now`, multiplicities included. */
  ghost predicate PartBefore(part: multiset<Timer>, all: multiset<Timer>, now: int) {
    forall t: Timer :: part[t] == if t.expiration < now then all[t] else 0
  }

  ghost predicate PartFrom(part: multiset<Timer>, all: multiset<Timer>, now: int) {
    forall t: Timer :: part[t] == if t.expiration < now then 0 else all[t]
  }

  /**
   The re-entrant drain: when callbacks only add timers that expire at or after `now`, a
   finished pass has fired exactly the timers that were expired at entry, each as often as
   it was queued and in order of expiration, and leaves the others and the added ones.
   */
  lemma DrainFiresTheExpired(q: Queue, rounds: seq<Round>, now: int)
    requires IsRun(q, rounds, now) && Over(Final(q, rounds), now)
    requires forall t | t in Added(rounds) :: now <= t.expiration
    ensures InOrder(Fired(rounds))
    ensures |rounds| == Late(q.Items(), now)
    ensures PartBefore(multiset(Fired(rounds)), q.Items(), now)
    ensures PartFrom(Final(q, rounds).Items(), q.Items() + multiset(Added(rounds)), now)
  {
    LateAddsAreClean(q, rounds, now);
    assert |rounds| == Late(q.Items(), now) by {
      PassLength(q, rounds, now);
    }
    var low := SomeLowerBound(q);
    FiresInOrder(q, rounds, now, low);
    var left := Final(q, rounds).Items();
    assert AtLeast(left, now) by {
      NothingLate(q, rounds, now);
    }
    assert q.Items() + multiset(Added(rounds)) == multiset(Fired(rounds)) + left by {
      ExactlyOnceIff(q, rounds, now);
    }
    SplitAt(q.Items(), Added(rounds), Fired(rounds), left, now);
  }

  /** Early timers on one side, late ones on the other. */
  lemma SplitAt(before: multiset<Timer>, added: seq<Timer>, fired: seq<Timer>, left: multiset<Timer>, now: int)
    requires before + multiset(added) == multiset(fired) + left
    requires forall t | t in added :: now <= t.expiration
    requires forall t | t in fired :: t.expiration < now
    requires forall t | t in left :: now <= t.expiration
    ensures PartBefore(multiset(fired), before, now)
    ensures PartFrom(left, before + multiset(added), now)
  {
    forall t: Timer
      ensures multiset(fired)[t] + left[t] == before[t] + multiset(added)[t]
    {
      assert (before + multiset(added))[t] == (multiset(fired) + left)[t];
    }
  }

  lemma SomeLowerBound(q: Queue) returns (low: int)
    requires q.Valid()
    ensures AtLeast(q.Items(), low)
  {
    low := if q.Empty? then 0 else q.top.expiration;
  }

  lemma NothingLate(q: Queue, rounds: seq<Round>, now: int)
    requires IsRun(q, rounds, now) && Over(Final(q, rounds), now)
    ensures AtLeast(Final(q, rounds).Items(), now)
  {
    RoundsCount(q, rounds, now);
  }

  // ------------------------------------------------------- whole histories

  /** Timers added since the last pass, and the pass that follows. */
  datatype Epoch = Epoch(adds: seq<Timer>, now: int, rounds: seq<Round>)

  /**
   Passes with a clock that never goes back. Each pass is finished and clean, and what is
   added between passes does not expire before the clock of the last one.
   */
  ghost predicate IsHistory(q: Queue, clock: int, epochs: seq<Epoch>)
    decreases |epochs|
  {
    q.Valid() &&
    (epochs == [] ||
     var e := epochs[0];
     var filled := PushAll(q, e.adds);
     && clock <= e.now
     && (forall t | t in e.adds :: clock <= t.expiration)
     && IsRun(filled, e.rounds, e.now) && AllClean(e.rounds) && Over(Final(filled, e.rounds), e.now)
     && IsHistory(Final(filled, e.rounds), e.now, epochs[1..]))
  }

  function AllFired(epochs: seq<Epoch>): seq<Timer> {
    if epochs == [] then [] else Fired(epochs[0].rounds) + AllFired(epochs[1..])
  }

  function AllAdded(epochs: seq<Epoch>): seq<Timer> {
    if epochs == [] then [] else epochs[0].adds + Added(epochs[0].rounds) + AllAdded(epochs[1..])
  }

  function Queued(q: Queue, epochs: seq<Epoch>): multiset<Timer>
    requires q.Valid()
    decreases |epochs|
  {
    if epochs == [] then q.Items()
    else
      var last := Final(PushAll(q, epochs[0].adds), epochs[0].rounds);
      if last.Valid() then Queued(last, epochs[1..]) else multiset{}
  }

  /** One epoch: what it fires lies between the old clock and the new one, what it leaves lies after. */
  lemma OneEpoch(q: Queue, clock: int, epochs: seq<Epoch>)
    requires IsHistory(q, clock, epochs) && epochs != [] && AtLeast(q.Items(), clock)
    ensures var e := epochs[0];
            var last := Final(PushAll(q, e.adds), e.rounds);
            && IsHistory(last, e.now, epochs[1..])
            && AtLeast(last.Items(), e.now)
            && InOrder(Fired(e.rounds))
            && (forall t | t in Fired(e.rounds) :: clock <= t.expiration < e.now)
            && q.Items() + multiset(e.adds + Added(e.rounds)) == multiset(Fired(e.rounds)) + last.Items()
  {
    var e := epochs[0];
    var filled := PushAll(q, e.adds);
    assert AtLeast(filled.Items(), clock);
    FiresInOrder(filled, e.rounds, e.now, clock);
    ExactlyOnceIff(filled, e.rounds, e.now);
    NothingLate(filled, e.rounds, e.now);
    Regroup(q.Items(), e.adds, Added(e.rounds));
  }

  lemma Regroup(m: multiset<Timer>, xs: seq<Timer>, ys: seq<Timer>)
    ensures m + multiset(xs + ys) == m + multiset(xs) + multiset(ys)
  {}

  /**
   Whole-history order: over any number of passes everything ever fired is sorted by
   expiration, and everything ever added has either fired, once, or is still queued.
   */
  lemma {:induction false} HistoryInOrder(q: Queue, clock: int, epochs: seq<Epoch>)
    requires IsHistory(q, clock, epochs) && AtLeast(q.Items(), clock)
    ensures InOrder(AllFired(epochs))
    ensures forall t | t in AllFired(epochs) :: clock <= t.expiration
    ensures q.Items() + multiset(AllAdded(epochs)) == multiset(AllFired(epochs)) + Queued(q, epochs)
    decreases |epochs|
  {
    if epochs != [] {
      var e, rest := epochs[0], epochs[1..];
      var last := Final(PushAll(q, e.adds), e.rounds);
      OneEpoch(q, clock, epochs);
      HistoryInOrder(last, e.now, rest);
      InOrderConcat(Fired(e.rounds), AllFired(rest), e.now);
      Chain(q.Items(), multiset(e.adds + Added(e.rounds)), multiset(Fired(e.rounds)), last.Items(),
            multiset(AllAdded(rest)), multiset(AllFired(rest)), Queued(q, epochs));
      assert multiset(AllAdded(epochs)) == multiset(e.adds + Added(e.rounds)) + multiset(AllAdded(rest));
      assert multiset(AllFired(epochs)) == multiset(Fired(e.rounds)) + multiset(AllFired(rest));
    }
  }

  lemma InOrderConcat(xs: seq<Timer>, ys: seq<Timer>, mid: int)
    requires InOrder(xs) && InOrder(ys)
    requires (forall t | t in xs :: t.expiration < mid) && (forall t | t in ys :: mid <= t.expiration)
    ensures InOrder(xs + ys)
  {}

  /**
   A callback that adds an earlier timer: the new one is removed without ever firing, and
   the timer that was firing fires a second time.
   */
  lemma EarlierTimerIsLost()
    ensures exists q, rounds ::
              && IsRun(q, rounds, 10) && Over(Final(q, rounds), 10)
              && Fired(rounds) == [Timer(1, 5), Timer(1, 5)]
              && Added(rounds) == [Timer(2, 3)]
              && Final(q, rounds).Items() == multiset{}
  {
    var first, early := Timer(1, 5), Timer(2, 3);
    var q := Queue(first, multiset{});
    var r0 := Round(q, first, [early], early, q);
    var r1 := Round(q, first, [], first, Empty);
    assert PushAll(q, [early]) == q.Push(early) == Queue(early, multiset{first});
    assert PushAll(q, []) == q;
    assert r0.Happens(10) && r1.Happens(10);
    var rounds := [r0, r1];
    assert rounds[1..] == [r1] && [r1][1..] == [];
    assert HappensAt(q, rounds, 10, 0) && HappensAt(q, rounds, 10, 1);
    assert IsRun(q, rounds, 10);
    assert Fired(rounds) == [first] + Fired([r1]);
    assert Fired([r1]) == [first] + Fired([]);
    assert Added(rounds) == [early] + Added([r1]);
    assert Added([r1]) == [] + Added([]);
  }
}
