/**
 The pipeline behind `AsyncLogging` as a transition system: any number of producers, one
 consumer thread, double buffering and a log file that may fail a write. Every step is
 one critical section or one buffer written.
 */
module AsyncLogProtocol {
  import opened Sequences
  import opened LogBuffers

  type Line = string
  type Buffer = seq<Line>

  datatype Phase =
    | AtTop       // about to test running_flag_
    | Entering    // inside the loop, about to lock
    | Waiting     // in wait_for, mutex released
    | Writing     // mutex released, writing buffers_to_wirte
    | Done

  /**
   `accepted` is the history of the lines stored by `Append`, in lock order. `sent` holds
   the lines of the buffers passed to the log file so far, `emitted` the bytes the file
   took, `lost` the bytes a failed write left out.
   */
  datatype State = State(
    phase: Phase,
    running: bool,
    current: Buffer,
    queued: seq<Buffer>,
    toWrite: seq<Buffer>,
    next: nat,
    accepted: seq<Line>,
    sent: seq<Line>,
    emitted: string,
    lost: nat,
    flushed: nat)

  datatype Event =
    | Append(line: Line)    // a producer, atomic under the mutex
    | Stop                  // the destructor clears running_flag_
    | TestRunning           // the loop condition; a false one ends in the final flush
    | Enter                 // locks, and swaps unless there is nothing queued
    | WakeUp                // notified, timed out or spurious: swaps without looking again
    | WriteBuffer(taken: nat)
    | ClearAndFlush

  function Bytes(lines: seq<Line>): string { Flatten(lines) }

  predicate Accepts(line: Line) {
    |line| < LARGE_BUFFER
  }

  predicate Enabled(s: State, e: Event) {
    match e
    case Append(_) => true
    case Stop => true
    case TestRunning => s.phase.AtTop?
    case Enter => s.phase.Entering?
    case WakeUp => s.phase.Waiting?
    case WriteBuffer(taken) =>
      s.phase.Writing? && s.next < |s.toWrite| && taken <= |Bytes(s.toWrite[s.next])|
    case ClearAndFlush => s.phase.Writing? && s.next == |s.toWrite|
  }

  predicate HasRoom(s: State, line: Line) {
    LARGE_BUFFER - |Bytes(s.current)| > |line|
  }

  function RolledOver(s: State): State {
    s.(queued := s.queued + [s.current], current := [])
  }

  /** `FixedBuffer::Append` on the current buffer: the line is kept whole or dropped whole. */
  function Stored(s: State, line: Line): State {
    if HasRoom(s, line) then s.(current := s.current + [line], accepted := s.accepted + [line]) else s
  }

  function Swapped(s: State): State {
    s.(phase := Writing, toWrite := RolledOver(s).queued, next := 0, queued := [], current := [])
  }

  function Apply(s: State, e: Event): State
    requires Enabled(s, e)
  {
    match e
    case Append(line) => Stored(if HasRoom(s, line) then s else RolledOver(s), line)
    case Stop => s.(running := false)
    case TestRunning =>
      if s.running then s.(phase := Entering) else s.(phase := Done, flushed := |s.emitted|)
    case Enter => if s.queued == [] then s.(phase := Waiting) else Swapped(s)
    case WakeUp => Swapped(s)
    case WriteBuffer(taken) =>
      var bytes := Bytes(s.toWrite[s.next]);
      s.(next := s.next + 1,
         sent := s.sent + s.toWrite[s.next],
         emitted := s.emitted + bytes[..taken],
         lost := s.lost + |bytes| - taken)
    case ClearAndFlush => s.(phase := AtTop, toWrite := [], next := 0, flushed := |s.emitted|)
  }

  predicate Init(s: State) {
    s == State(AtTop, true, [], [], [], 0, [], [], "", 0, 0)
  }

  predicate Possible(s: State, events: seq<Event>)
    decreases |events|
  {
    events == [] || (Enabled(s, events[0]) && Possible(Apply(s, events[0]), events[1..]))
  }

  function Reached(s: State, events: seq<Event>): State
    requires Possible(s, events)
    decreases |events|
  {
    if events == [] then s else Reached(Apply(s, events[0]), events[1..])
  }

  // ------------------------------------------------------------ invariants

  /** Buffers not yet passed to the log file, oldest first. */
  function Unwritten(s: State): seq<Buffer> {
    if s.next <= |s.toWrite| then s.toWrite[s.next..] + s.queued else s.queued
  }

  /** The accepted lines that are still in memory, in order. */
  function InMemory(s: State): seq<Line> {
    Flatten(Unwritten(s)) + s.current
  }

  /** Conservation: every accepted line is either passed on or in memory, once and in lock order. */
  predicate Conserved(s: State) {
    s.sent + InMemory(s) == s.accepted
  }

  /** The file holds what was passed on, but for the bytes failed writes left out. */
  predicate FileFollows(s: State) {
    && |s.emitted| + s.lost == |Bytes(s.sent)|
    && (s.lost == 0 ==> s.emitted == Bytes(s.sent))
    && s.flushed <= |s.emitted|
  }

  /** The two assertions of the loop, and the position of the writing loop. */
  predicate LoopAsserts(s: State) {
    && (s.phase.Writing? ==> s.toWrite != [])
    && (!s.phase.Writing? ==> s.toWrite == [])
    && s.next <= |s.toWrite|
    && (!s.phase.Writing? ==> s.next == 0)
  }

  /** `Append` keeps one byte of every buffer free. */
  predicate Fits(s: State) {
    && |Bytes(s.current)| < LARGE_BUFFER
    && (forall b | b in s.queued :: |Bytes(b)| < LARGE_BUFFER)
    && (forall b | b in s.toWrite :: |Bytes(b)| < LARGE_BUFFER)
  }

  predicate Inv(s: State) {
    Conserved(s) && FileFollows(s) && LoopAsserts(s) && Fits(s)
  }

  lemma BytesSnoc(lines: seq<Line>, line: Line)
    ensures Bytes(lines + [line]) == Bytes(lines) + line
  {
    FlattenConcat(lines, [line]);
    FlattenOne(line);
  }

  lemma StepFits(s: State, e: Event)
    requires Fits(s) && Enabled(s, e)
    ensures Fits(Apply(s, e))
  {
    if e.Append? {
      BytesSnoc(s.current, e.line);
      BytesSnoc([], e.line);
    }
  }

  lemma StepLoopAsserts(s: State, e: Event)
    requires LoopAsserts(s) && Enabled(s, e)
    ensures LoopAsserts(Apply(s, e))
  {}

  lemma StepFileFollows(s: State, e: Event)
    requires FileFollows(s) && Enabled(s, e)
    ensures FileFollows(Apply(s, e))
  {
    if e.WriteBuffer? {
      FlattenConcat(s.sent, s.toWrite[s.next]);
    }
  }

  lemma AppendConserves(s: State, line: Line)
    requires Fits(s)
    ensures InMemory(Apply(s, Append(line))) == InMemory(s) + if |line| < 4_000_000 then [line] else []
  {
    var s' := Apply(s, Append(line));
    if s'.queued == s.queued {
      assert Unwritten(s') == Unwritten(s);
      Assoc(Flatten(Unwritten(s)), s.current, [line]);
    } else {
      assert Unwritten(s') == Unwritten(s) + [s.current];
      FlattenConcat(Unwritten(s), [s.current]);
      FlattenOne(s.current);
    }
  }

  lemma SwapConserves(s: State)
    requires LoopAsserts(s) && !s.phase.Writing?
    ensures InMemory(Swapped(s)) == InMemory(s)
  {
    var s' := Swapped(s);
    assert Unwritten(s) == s.queued;
    assert Unwritten(s') == s.queued + [s.current];
    FlattenConcat(s.queued, [s.current]);
    FlattenOne(s.current);
  }

  lemma WriteConserves(s: State, taken: nat)
    requires Enabled(s, WriteBuffer(taken))
    ensures InMemory(s) == s.toWrite[s.next] + InMemory(Apply(s, WriteBuffer(taken)))
  {
    var s' := Apply(s, WriteBuffer(taken));
    assert Unwritten(s) == [s.toWrite[s.next]] + Unwritten(s');
    FlattenConcat([s.toWrite[s.next]], Unwritten(s'));
    FlattenOne(s.toWrite[s.next]);
    Assoc(s.toWrite[s.next], Flatten(Unwritten(s')), s'.current);
  }

  lemma StepConserved(s: State, e: Event)
    requires Inv(s) && Enabled(s, e)
    ensures Conserved(Apply(s, e))
  {
    match e
    case Append(line) =>
      AppendConserves(s, line);
      Assoc(s.sent, InMemory(s), if Accepts(line) then [line] else []);
    case Enter => SwapConserves(s);
    case WakeUp => SwapConserves(s);
    case WriteBuffer(taken) =>
      WriteConserves(s, taken);
      Assoc(s.sent, s.toWrite[s.next], InMemory(Apply(s, e)));
    case ClearAndFlush => assert Unwritten(s) == Unwritten(Apply(s, e));
    case _ =>
  }

  lemma StepInv(s: State, e: Event)
    requires Inv(s) && Enabled(s, e)
    ensures Inv(Apply(s, e))
  {
    StepConserved(s, e);
    StepFileFollows(s, e);
    StepLoopAsserts(s, e);
    StepFits(s, e);
  }

  lemma {:induction false} RunInv(s: State, events: seq<Event>)
    requires Inv(s) && Possible(s, events)
    ensures Inv(Reached(s, events))
    decreases |events|
  {
    if events != [] {
      StepInv(s, events[0]);
      RunInv(Apply(s, events[0]), events[1..]);
    }
  }

  lemma InitInv(s: State)
    requires Init(s)
    ensures Inv(s)
  {}

  /** Runs are all there are: whatever is enabled where a run has got to carries it on. */
  lemma {:induction false} RunGoesOn(s: State, events: seq<Event>, e: Event)
    requires Possible(s, events) && Enabled(Reached(s, events), e)
    ensures Possible(s, []) && Reached(s, []) == s
    ensures Possible(s, events + [e]) && Reached(s, events + [e]) == Apply(Reached(s, events), e)
    decreases |events|
  {
    if events == [] {
      EmptyConcat(events, [e]);
      assert [e][1..] == [];
    } else {
      TailOfConcat(events, [e]);
      RunGoesOn(Apply(s, events[0]), events[1..], e);
    }
  }

  // -------------------------------------------------------------- theorems

  /** The lines of a run that get a place in a buffer: all but those no buffer can hold. */
  function Logged(events: seq<Event>): seq<Line> {
    if events == [] then []
    else if events[0].Append? && Accepts(events[0].line) then [events[0].line] + Logged(events[1..])
    else Logged(events[1..])
  }

  function Appended(events: seq<Event>): seq<Line> {
    if events == [] then []
    else if events[0].Append? then [events[0].line] + Appended(events[1..])
    else Appended(events[1..])
  }

  /** A line is dropped exactly when it is too long for an empty buffer. */
  lemma {:induction false} NoneDropped(events: seq<Event>)
    ensures |Logged(events)| <= |Appended(events)|
    ensures Logged(events) == Appended(events) <==> forall e | e in events :: e.Append? ==> |e.line| < 4_000_000
  {
    if events != [] {
      NoneDropped(events[1..]);
      assert events[0] in events;
      assert forall e | e in events :: e == events[0] || e in events[1..];
      assert forall e | e in events[1..] :: e in events;
      if events[0].Append? && Accepts(events[0].line) {
        assert Logged(events)[1..] == Logged(events[1..]) && Appended(events)[1..] == Appended(events[1..]);
      }
    }
  }

  lemma {:induction false} AcceptedAreLogged(s: State, events: seq<Event>)
    requires Possible(s, events)
    ensures Reached(s, events).accepted == s.accepted + Logged(events)
    decreases |events|
  {
    if events != [] {
      var s' := Apply(s, events[0]);
      AcceptedAreLogged(s', events[1..]);
      if events[0].Append? && Accepts(events[0].line) {
        Assoc(s.accepted, [events[0].line], Logged(events[1..]));
      }
    }
  }

  /** No write of the run failed: every buffer went out whole. */
  predicate Clean(s: State, events: seq<Event>)
    requires Possible(s, events)
    decreases |events|
  {
    events == []
    || ((events[0].WriteBuffer? ==> events[0].taken == |Bytes(s.toWrite[s.next])|)
        && Clean(Apply(s, events[0]), events[1..]))
  }

  lemma {:induction false} CleanLosesNothing(s: State, events: seq<Event>)
    requires Possible(s, events)
    ensures s.lost <= Reached(s, events).lost
    ensures Clean(s, events) <==> Reached(s, events).lost == s.lost
    decreases |events|
  {
    if events != [] {
      CleanLosesNothing(Apply(s, events[0]), events[1..]);
    }
  }

  /**
   Log conservation over every run: with no failed write, the file followed by what is
   still in memory is exactly the stream of accepted lines in lock order, so the file is
   a prefix of that stream; a failed write breaks this for good.
   */
  lemma LogConservation(start: State, events: seq<Event>)
    requires Init(start) && Possible(start, events)
    ensures var s := Reached(start, events);
            && s.sent + InMemory(s) == Logged(events)
            && (Clean(start, events) <==> s.emitted + Bytes(InMemory(s)) == Bytes(Logged(events)))
            && (Clean(start, events) ==> s.emitted <= Bytes(Logged(events)))
  {
    var s := Reached(start, events);
    InitInv(start);
    RunInv(start, events);
    AcceptedAreLogged(start, events);
    assert s.accepted == Logged(events);
    CleanLosesNothing(start, events);
    FlattenConcat(s.sent, InMemory(s));
  }

  /** The buffers a run passes to the log file, and of each the bytes the file took. */
  function Passed(s: State, events: seq<Event>): seq<Buffer>
    requires Possible(s, events)
    decreases |events|
  {
    if events == [] then []
    else
      (if events[0].WriteBuffer? then [s.toWrite[s.next]] else []) + Passed(Apply(s, events[0]), events[1..])
  }

  function Pieces(s: State, events: seq<Event>): seq<string>
    requires Possible(s, events)
    decreases |events|
  {
    if events == [] then []
    else
      (if events[0].WriteBuffer? then [Bytes(s.toWrite[s.next])[..events[0].taken]] else [])
      + Pieces(Apply(s, events[0]), events[1..])
  }

  /** Piece by piece a prefix of what was to be written. */
  predicate Cut(pieces: seq<string>, buffers: seq<Buffer>) {
    |pieces| == |buffers| && forall i | 0 <= i < |pieces| :: pieces[i] <= Bytes(buffers[i])
  }

  lemma CutCons(piece: string, buffer: Buffer, pieces: seq<string>, buffers: seq<Buffer>)
    requires piece <= Bytes(buffer) && Cut(pieces, buffers)
    ensures Cut([piece] + pieces, [buffer] + buffers)
  {}

  /**
   What the file holds whatever fails: of every buffer passed on, in order, a prefix; and
   the buffers passed on are the lines sent.
   */
  lemma {:induction false} FileIsPrefixes(s: State, events: seq<Event>)
    requires Possible(s, events)
    ensures Cut(Pieces(s, events), Passed(s, events))
    ensures Reached(s, events).emitted == s.emitted + Flatten(Pieces(s, events))
    ensures Reached(s, events).sent == s.sent + Flatten(Passed(s, events))
    decreases |events|
  {
    if events != [] {
      var e, s', rest := events[0], Apply(s, events[0]), events[1..];
      FileIsPrefixes(s', rest);
      if e.WriteBuffer? {
        var buffer := s.toWrite[s.next];
        var piece := Bytes(buffer)[..e.taken];
        CutCons(piece, buffer, Pieces(s', rest), Passed(s', rest));
        FlattenConcat([piece], Pieces(s', rest));
        FlattenOne(piece);
        Assoc(s.emitted, piece, Flatten(Pieces(s', rest)));
        FlattenConcat([buffer], Passed(s', rest));
        FlattenOne(buffer);
        Assoc(s.sent, buffer, Flatten(Passed(s', rest)));
      } else {
        EmptyConcat([], Pieces(s', rest));
        EmptyConcat([], Passed(s', rest));
      }
    }
  }

  /** The lines a consumer iteration owes the file: from the lock on, everything accepted before it. */
  predicate Owed(s: State, before: seq<Line>) {
    match s.phase
    case Entering => before <= s.accepted
    case Waiting => before <= s.accepted
    case Writing => s.next <= |s.toWrite| && before <= s.sent + Flatten(s.toWrite[s.next..])
    case _ => before <= s.sent && s.flushed == |s.emitted|
  }

  lemma PrefixThrough<T>(a: seq<T>, b: seq<T>, c: seq<T>)
    requires a <= b
    ensures a <= b + c
  {}

  /** Writing a buffer turns lines still to write into lines passed on. */
  lemma WriteOwes(s: State, taken: nat)
    requires Enabled(s, WriteBuffer(taken))
    ensures var s' := Apply(s, WriteBuffer(taken));
            s'.sent + Flatten(s'.toWrite[s'.next..]) == s.sent + Flatten(s.toWrite[s.next..])
  {}

  lemma StepOwed(s: State, e: Event, before: seq<Line>)
    requires Inv(s) && Enabled(s, e) && Owed(s, before)
    ensures Owed(Apply(s, e), before)
  {
    match e
    case WriteBuffer(taken) => WriteOwes(s, taken);
    case ClearAndFlush =>
      assert s.toWrite[s.next..] == [];
      assert s.sent + [] == s.sent;
    case TestRunning => PrefixThrough(before, s.sent, InMemory(s));
    case Enter => SwapOwes(s, before);
    case WakeUp => SwapOwes(s, before);
    case _ =>
  }

  /** The swap takes everything accepted so far. */
  lemma SwapOwes(s: State, before: seq<Line>)
    requires Inv(s) && !s.phase.Writing? && before <= s.accepted
    ensures Owed(Swapped(s), before)
  {
    var s' := Swapped(s);
    SwapConserves(s);
    assert Unwritten(s') == s'.toWrite == s'.toWrite[0..];
    assert InMemory(s') == Flatten(s'.toWrite);
  }

  lemma {:induction false} OwedIsPaid(s: State, events: seq<Event>, before: seq<Line>)
    requires Inv(s) && Possible(s, events) && Owed(s, before)
    ensures Owed(Reached(s, events), before)
    decreases |events|
  {
    if events != [] {
      StepInv(s, events[0]);
      StepOwed(s, events[0], before);
      OwedIsPaid(Apply(s, events[0]), events[1..], before);
    }
  }

  /**
   Bounded staleness: everything accepted before a consumer iteration takes the lock has
   been passed to the log file and flushed when that iteration is over, and from then on
   whenever the consumer is back at the loop condition or gone.
   */
  lemma BoundedStaleness(start: State, first: seq<Event>, second: seq<Event>)
    requires Init(start) && Possible(start, first) && Possible(Reached(start, first), second)
    ensures var locking, later := Reached(start, first), Reached(Reached(start, first), second);
            (locking.phase.Entering? || locking.phase.Waiting?) && (later.phase.AtTop? || later.phase.Done?) ==>
              && locking.accepted <= later.sent
              && later.flushed == |later.emitted|
              && (later.lost == 0 ==> Bytes(locking.accepted) <= later.emitted)
  {
    var locking, later := Reached(start, first), Reached(Reached(start, first), second);
    InitInv(start);
    RunInv(start, first);
    RunInv(locking, second);
    if (locking.phase.Entering? || locking.phase.Waiting?) && (later.phase.AtTop? || later.phase.Done?) {
      OwedIsPaid(locking, second, locking.accepted);
      FlattenPrefix(locking.accepted, later.sent);
    }
  }

  lemma FlattenPrefix(xs: seq<Line>, ys: seq<Line>)
    requires xs <= ys
    ensures Bytes(xs) <= Bytes(ys)
  {
    assert ys == xs + ys[|xs|..];
    FlattenConcat(xs, ys[|xs|..]);
  }

  /** There is no drain at the end: once the consumer is done the file never changes, whatever is still in memory. */
  lemma {:induction false} NoFinalDrain(s: State, events: seq<Event>)
    requires s.phase.Done? && Possible(s, events)
    ensures var s' := Reached(s, events);
            s'.phase.Done? && s'.sent == s.sent && s'.emitted == s.emitted
    decreases |events|
  {
    if events != [] {
      NoFinalDrain(Apply(s, events[0]), events[1..]);
    }
  }

  // ------------------------------------------------- what shutdown loses

  /** The consumer takes the buffers over. */
  predicate Swaps(s: State, e: Event) {
    e.WakeUp? || (e.Enter? && s.queued != [])
  }

  /** The lines no swap has taken yet. */
  function Unswapped(s: State): seq<Line> {
    Flatten(s.queued) + s.current
  }

  /** The lines accepted after the last swap of a run, or all of them behind `lines` if there is none. */
  function SinceLastSwap(s: State, events: seq<Event>, lines: seq<Line>): seq<Line>
    requires Possible(s, events)
    decreases |events|
  {
    if events == [] then lines
    else
      SinceLastSwap(Apply(s, events[0]), events[1..],
                    if Swaps(s, events[0]) then [] else lines + Logged([events[0]]))
  }

  /** An append seen from the buffers no swap has taken. */
  lemma AppendUnswapped(s: State, line: Line)
    requires Fits(s)
    ensures Unswapped(Apply(s, Append(line))) == Unswapped(s) + if Accepts(line) then [line] else []
  {
    var t := s.(toWrite := [], next := 0);
    AppendConserves(t, line);
    EmptyConcat([], t.queued);
    EmptyConcat([], Apply(t, Append(line)).queued);
    assert Unwritten(t) == s.queued && Unwritten(Apply(t, Append(line))) == Apply(s, Append(line)).queued;
  }

  lemma LoggedOne(e: Event)
    ensures Logged([e]) == if e.Append? && Accepts(e.line) then [e.line] else []
  {
    assert [e][1..] == [];
  }

  lemma StepUnswapped(s: State, e: Event)
    requires Fits(s) && Enabled(s, e)
    ensures Unswapped(Apply(s, e)) == if Swaps(s, e) then [] else Unswapped(s) + Logged([e])
  {
    LoggedOne(e);
    if e.Append? {
      AppendUnswapped(s, e.line);
    }
  }

  lemma {:induction false} UnswappedSinceLastSwap(s: State, events: seq<Event>)
    requires Fits(s) && Possible(s, events)
    ensures Unswapped(Reached(s, events)) == SinceLastSwap(s, events, Unswapped(s))
    decreases |events|
  {
    if events != [] {
      StepUnswapped(s, events[0]);
      StepFits(s, events[0]);
      UnswappedSinceLastSwap(Apply(s, events[0]), events[1..]);
    }
  }

  /**
   There is no drain at the end: when the consumer is done, exactly the lines accepted
   since its last swap never reached the file. The file is the whole accepted stream if and
   only if no write failed and those lines hold no byte.
   */
  lemma LostAtExit(start: State, events: seq<Event>)
    requires Init(start) && Possible(start, events) && Reached(start, events).phase.Done?
    ensures var s, late := Reached(start, events), SinceLastSwap(start, events, []);
            && s.sent + late == Logged(events)
            && (s.emitted == Bytes(Logged(events)) <==> Clean(start, events) && Bytes(late) == "")
  {
    var s, late := Reached(start, events), SinceLastSwap(start, events, []);
    InitInv(start);
    RunInv(start, events);
    UnswappedSinceLastSwap(start, events);
    assert Unwritten(s) == s.queued;
    LogConservation(start, events);
    FlattenConcat(s.sent, late);
    CleanLosesNothing(start, events);
  }

  /** A line that is accepted and lost: the consumer is told to stop before it swaps at all. */
  lemma LineIsLost(start: State)
    requires Init(start)
    ensures var events := [Append("a"), Stop, TestRunning];
            && Possible(start, events) && Clean(start, events)
            && Reached(start, events).phase.Done? && Logged(events) == ["a"]
            && Reached(start, events).emitted == ""
  {
    var events := [Append("a"), Stop, TestRunning];
    assert events[1..] == [Stop, TestRunning] && events[1..][1..] == [TestRunning] && events[1..][1..][1..] == [];
  }

  /** A line that just fits an empty buffer is dropped. */
  lemma FullLineIsDropped(start: State, line: Line)
    requires Init(start) && |line| == 4_000_000
    ensures Logged([Append(line)]) == []
    ensures Reached(start, [Append(line)]).accepted == [] && Bytes(InMemory(Reached(start, [Append(line)]))) == ""
  {
    var events := [Append(line)];
    assert events[1..] == [];
    InitInv(start);
    RunInv(start, events);
    AcceptedAreLogged(start, events);
    LogConservation(start, events);
  }

  // ------------------------------------------------------ shutdown happens

  predicate OfConsumer(e: Event) {
    !e.Append? && !e.Stop?
  }

  /** Consumer steps until it is done, with the buffers there are now. */
  function StepsLeft(s: State): nat
    requires s.next <= |s.toWrite|
  {
    match s.phase
    case Done => 0
    case AtTop => 1
    case Writing => |s.toWrite| - s.next + 2
    case Waiting => |s.queued| + 4
    case Entering => |s.queued| + 5
  }

  function ConsumerSteps(events: seq<Event>): (n: nat)
    ensures n <= |events|
    ensures n == |events| <==> forall e | e in events :: !e.Append? && !e.Stop?
  {
    if events == [] then 0 else (if OfConsumer(events[0]) then 1 else 0) + ConsumerSteps(events[1..])
  }

  /**
   Shutdown is inevitable: once the pipeline is stopped the consumer cannot take more steps,
   in any run, than the buffers there are and the appends still coming allow, and it has
   none left exactly when it is done.
   */
  lemma {:induction false} ShutdownIsBounded(s: State, events: seq<Event>)
    requires Inv(s) && !s.running && Possible(s, events)
    ensures var s' := Reached(s, events);
            && s'.next <= |s'.toWrite| && !s'.running
            && ConsumerSteps(events) + StepsLeft(s') <= StepsLeft(s) + |Appended(events)|
            && (StepsLeft(s') == 0 <==> s'.phase.Done?)
            && StepsLeft(s) <= 5 + |s.toWrite| + |s.queued|
    decreases |events|
  {
    if events != [] {
      StepInv(s, events[0]);
      ShutdownIsBounded(Apply(s, events[0]), events[1..]);
    }
  }

  /** And it can always take one: no step of the consumer waits for anything but the wait's own end. */
  lemma ConsumerCanStep(s: State) returns (e: Event)
    requires Inv(s) && !s.phase.Done?
    ensures Enabled(s, e) && OfConsumer(e)
  {
    match s.phase
    case AtTop => e := TestRunning;
    case Entering => e := Enter;
    case Waiting => e := WakeUp;
    case Writing => e := if s.next < |s.toWrite| then WriteBuffer(0) else ClearAndFlush;
  }

  /** As long as nobody stops it, the consumer is not done, and its loop goes on. */
  lemma {:induction false} ServesUntilStopped(s: State, events: seq<Event>)
    requires Possible(s, events) && s.running && !s.phase.Done? && Stop !in events
    ensures var s' := Reached(s, events);
            && s'.running && !s'.phase.Done?
            && (s'.phase.AtTop? ==> Enabled(s', TestRunning) && Apply(s', TestRunning).phase.Entering?)
    decreases |events|
  {
    if events != [] {
      ServesUntilStopped(Apply(s, events[0]), events[1..]);
    }
  }

  /** Appending and stopping are possible in every state, and in which states the consumer waits and swaps. */
  lemma ProducersNeverWait(s: State, line: Line)
    ensures Enabled(s, Append(line)) && Enabled(s, Stop) && !Apply(s, Stop).running
    ensures s.phase.Entering? ==>
              Enabled(s, Enter) && (Apply(s, Enter).phase.Waiting? <==> s.queued == [])
    ensures s.phase.Waiting? ==> Enabled(s, WakeUp) && Apply(s, WakeUp).phase.Writing?
  {}

  // -------------------------------------------------------- dense buffers

  predicate RecordsUpTo(events: seq<Event>, longest: nat) {
    forall e | e in events :: e.Append? ==> |e.line| <= longest
  }

  /** Buffers queued by a rollover are full but for less than one record; only the last one to write may not be. */
  predicate Dense(s: State, longest: nat) {
    && (forall b | b in s.queued :: |Bytes(b)| >= LARGE_BUFFER - longest)
    && (forall i | 0 <= i < |s.toWrite| - 1 :: |Bytes(s.toWrite[i])| >= LARGE_BUFFER - longest)
  }

  lemma {:induction false} BuffersStayDense(s: State, events: seq<Event>, longest: nat)
    requires Dense(s, longest) && Possible(s, events) && RecordsUpTo(events, longest)
    ensures Dense(Reached(s, events), longest)
    decreases |events|
  {
    if events != [] {
      assert events[0] in events;
      assert forall e | e in events[1..] :: e in events;
      BuffersStayDense(Apply(s, events[0]), events[1..], longest);
    }
  }

  lemma OneMore(n: nat, each: nat)
    ensures (n + 1) * each == n * each + each
  {}

  lemma {:induction false} DenseWeight(buffers: seq<Buffer>, each: nat)
    requires forall b | b in buffers :: |Bytes(b)| >= each
    ensures |Bytes(Flatten(buffers))| >= |buffers| * each
  {
    if buffers != [] {
      DenseWeight(buffers[1..], each);
      FlattenConcat(buffers[0], Flatten(buffers[1..]));
      assert buffers[0] in buffers;
      OneMore(|buffers| - 1, each);
    }
  }

  /**
   Lines are never split or dropped and buffers stay dense: when every line is a record some
   stream has built, all lines are kept whole, and `k` queued buffers carry at least
   k·(4,000,000 − 3999) bytes.
   */
  lemma DenseQueue(start: State, events: seq<Event>)
    requires Init(start) && Possible(start, events)
    requires forall e | e in events :: e.Append? ==> IsRecord(e.line)
    ensures var s := Reached(start, events);
            && s.sent + InMemory(s) == Logged(events)
            && Logged(events) == Appended(events)
            && |Bytes(Flatten(s.queued))| >= |s.queued| * 3_996_001
  {
    forall e | e in events && e.Append?
      ensures |e.line| <= SMALL_BUFFER - 1
    {
      RecordsAreShort(e.line);
    }
    LogConservation(start, events);
    BuffersStayDense(start, events, SMALL_BUFFER - 1);
    DenseWeight(Reached(start, events).queued, LARGE_BUFFER - (SMALL_BUFFER - 1));
    NoneDropped(events);
  }
}
