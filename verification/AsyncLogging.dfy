/**
 `AsyncLogging` itself: the current buffer, the queue of full ones, the consumer's local
 vector and the log file. One method for each critical section of `Append` and
 `ThreadFunc`, each of them one step of `AsyncLogProtocol`.
 */
module AsyncLoggings {
  import opened Limits
  import opened Sequences
  import opened LogBuffers
  import opened AsyncLogProtocol

  ghost predicate Holds(b: FixedBuffer, lines: Buffer)
    reads b, b.data
  {
    b.Valid() && b.data.Length == LARGE_BUFFER && b.Contents() == Bytes(lines)
  }

  /** The lines that get a place in a buffer. */
  function Kept(lines: seq<Line>): seq<Line> {
    if lines == [] then [] else (if Accepts(lines[0]) then [lines[0]] else []) + Kept(lines[1..])
  }

  /** Producers have appended these lines, and done nothing else. */
  predicate Fed(s: State, s': State, lines: seq<Line>) {
    s' == s.(current := s'.current, queued := s'.queued, accepted := s.accepted + Kept(lines))
  }

  /** The state after these appends. */
  function AppendedTo(s: State, lines: seq<Line>): State
    decreases |lines|
  {
    if lines == [] then s else Apply(AppendedTo(s, lines[..|lines| - 1]), Append(lines[|lines| - 1]))
  }

  lemma AppendIsFed(s: State, line: Line)
    ensures Fed(s, Apply(s, Append(line)), [line])
  {
    KeptSnoc([], line);
    assert [line] == [] + [line];
  }

  lemma FedTwice(s: State, t: State, u: State, lines: seq<Line>, line: Line)
    requires Fed(s, t, lines) && Fed(t, u, [line])
    ensures Fed(s, u, lines + [line])
  {
    KeptSnoc(lines, line);
    KeptSnoc([], line);
    assert [line] == [] + [line];
    Assoc(s.accepted, Kept(lines), Kept([line]));
  }

  lemma {:induction false} AppendedIsFed(s: State, lines: seq<Line>)
    ensures Fed(s, AppendedTo(s, lines), lines)
    decreases |lines|
  {
    if lines != [] {
      var front, line := lines[..|lines| - 1], lines[|lines| - 1];
      AppendedIsFed(s, front);
      AppendIsFed(AppendedTo(s, front), line);
      FedTwice(s, AppendedTo(s, front), AppendedTo(s, lines), front, line);
      assert lines == front + [line];
    }
  }

  lemma {:induction false} AppendedKeepsInv(s: State, lines: seq<Line>)
    requires Inv(s)
    ensures Inv(AppendedTo(s, lines))
    decreases |lines|
  {
    if lines != [] {
      AppendedKeepsInv(s, lines[..|lines| - 1]);
      StepInv(AppendedTo(s, lines[..|lines| - 1]), Append(lines[|lines| - 1]));
    }
  }

  lemma {:induction false} KeptSnoc(lines: seq<Line>, line: Line)
    ensures Kept(lines + [line]) == Kept(lines) + if Accepts(line) then [line] else []
  {
    if lines == [] {
      EmptyConcat(lines, [line]);
      assert [line][1..] == [];
    } else {
      TailOfConcat(lines, [line]);
      KeptSnoc(lines[1..], line);
      Assoc(if Accepts(lines[0]) then [lines[0]] else [], Kept(lines[1..]), if Accepts(line) then [line] else []);
    }
  }

  /** The lines passed on once the buffers in hand are written. */
  function Due(s: State): seq<Line>
    requires s.next <= |s.toWrite|
  {
    s.sent + Flatten(s.toWrite[s.next..])
  }

  /** The writing loop moves on: what is due stays due, and what is lost stays lost. */
  predicate Onwards(s: State, s': State) {
    && s'.phase.Writing? && s'.running == s.running
    && s.next <= s'.next <= |s.toWrite| && s'.toWrite == s.toWrite && Due(s') == Due(s)
    && s.lost <= s'.lost && s.accepted <= s'.accepted
  }

  lemma OnwardsTwice(s: State, t: State, u: State)
    requires Onwards(s, t) && Onwards(t, u)
    ensures Onwards(s, u)
  {}

  lemma FedIsOnwards(s: State, t: State, lines: seq<Line>)
    requires Fed(s, t, lines) && s.phase.Writing? && s.next <= |s.toWrite|
    ensures Onwards(s, t)
  {}

  class AsyncLogging {
    var runningFlag: bool
    var currentBuffer: FixedBuffer?
    var buffersVector: seq<FixedBuffer>

    // locals of ThreadFunc
    var buffersToWrite: seq<FixedBuffer>
    var nextToWrite: nat
    const output: LogFile

    ghost var state: State
    ghost var Repr: set<object>

    /** A buffer producers no longer write to. */
    ghost predicate Retired(b: FixedBuffer, lines: Buffer)
      requires currentBuffer != null
      reads this, Repr
    {
      && b in Repr && b.data in Repr
      && b != currentBuffer && b.data != currentBuffer.data
      && Holds(b, lines)
    }

    ghost predicate AllRetired(buffers: seq<FixedBuffer>, contents: seq<Buffer>)
      requires currentBuffer != null
      reads this, Repr
    {
      && |buffers| == |contents|
      && forall i | 0 <= i < |buffers| :: Retired(buffers[i], contents[i])
    }

    ghost predicate Valid()
      reads this, Repr
    {
      && currentBuffer != null
      && this !in Repr && output in Repr && currentBuffer in Repr && currentBuffer.data in Repr
      && Holds(currentBuffer, state.current)
      && AllRetired(buffersVector, state.queued)
      && AllRetired(buffersToWrite, state.toWrite)
      && nextToWrite == state.next
      && runningFlag == state.running
      && LoopAsserts(state)
      && output.Valid() && output.file == state.emitted && state.flushed <= output.flushed
    }

    constructor ()
      ensures Valid() && fresh(Repr)
      ensures Init(state)
    {
      runningFlag := true;
      var buffer := new FixedBuffer(LARGE_BUFFER);
      buffer.Clear();
      var file := new LogFile();
      currentBuffer, buffersVector := buffer, [];
      buffersToWrite, nextToWrite := [], 0;
      output := file;
      state := State(AtTop, true, [], [], [], 0, [], [], "", 0, 0);
      Repr := {buffer, buffer.data, file};
    }

    // ------------------------------------------------------------ producers

    /** `Append`, atomic under the mutex: into the current buffer, or into a fresh one after queueing it. */
    method Append(logLine: Line)
      requires Valid() && |logLine| <= INT_MAX
      modifies this, currentBuffer, currentBuffer.data
      ensures Valid() && fresh(Repr - old(Repr))
      ensures state == Apply(old(state), AsyncLogProtocol.Append(logLine))
    {
      if currentBuffer.Available() <= |logLine| {
        RollOver();
      }
      Store(logLine);
    }

    /** The current buffer joins the queue and a fresh one takes its place. */
    method RollOver()
      requires Valid()
      modifies this`currentBuffer, this`buffersVector, this`Repr, this`state
      ensures Valid() && fresh(currentBuffer) && fresh(currentBuffer.data)
      ensures fresh(Repr - old(Repr))
      ensures state == RolledOver(old(state))
    {
      buffersVector := buffersVector + [currentBuffer];
      currentBuffer := null;
      Replace();
      state := RolledOver(state);
    }

    /** `FixedBuffer::Append` on the current buffer. */
    method Store(logLine: Line)
      requires Valid() && |logLine| <= INT_MAX
      modifies this`state, currentBuffer, currentBuffer.data
      ensures Valid()
      ensures state == Stored(old(state), logLine)
    {
      BytesSnoc(state.current, logLine);
      currentBuffer.Append(logLine);
      state := Stored(state, logLine);
    }

    /** `current_buffer_.reset(new FixedBuffer)`. */
    method Replace()
      modifies this`currentBuffer, this`Repr
      ensures currentBuffer != null && fresh(currentBuffer) && fresh(currentBuffer.data)
      ensures Holds(currentBuffer, []) && Repr == old(Repr) + {currentBuffer, currentBuffer.data}
    {
      currentBuffer := new FixedBuffer(LARGE_BUFFER);
      Repr := Repr + {currentBuffer, currentBuffer.data};
    }

    method Shutdown()
      requires Valid()
      modifies this`runningFlag, this`state
      ensures Valid() && state == Apply(old(state), Stop)
    {
      runningFlag := false;
      state := Apply(state, Stop);
    }

    // --------------------------------------------------------- the consumer

    method ContinueLoop() returns (continues: bool)
      requires Valid() && Enabled(state, TestRunning)
      modifies this`state, output
      ensures Valid() && state == Apply(old(state), TestRunning)
      ensures continues <==> state.phase.Entering?
    {
      continues := runningFlag;
      if !continues {
        output.Flush();
      }
      state := Apply(state, TestRunning);
    }

    /** Takes the lock; with nothing queued the wait releases it again. */
    method EnterLock() returns (waits: bool)
      requires Valid() && Enabled(state, Enter)
      modifies this
      ensures Valid() && fresh(Repr - old(Repr))
      ensures state == Apply(old(state), Enter)
      ensures waits <==> state.phase.Waiting?
    {
      waits := |buffersVector| == 0;
      if waits {
        state := Apply(state, Enter);
      } else {
        SwapBuffers();
      }
    }

    method ReturnFromWait()
      requires Valid() && Enabled(state, WakeUp)
      modifies this
      ensures Valid() && fresh(Repr - old(Repr))
      ensures state == Apply(old(state), WakeUp)
    {
      SwapBuffers();
    }

    /** The rest of the critical section: the current buffer goes along, and the vectors change places. */
    method SwapBuffers()
      requires Valid() && |buffersToWrite| == 0
      modifies this
      ensures Valid() && fresh(Repr - old(Repr))
      ensures state == Swapped(old(state))
      ensures |buffersToWrite| > 0
    {
      RollOver();
      buffersToWrite, buffersVector := buffersVector, buffersToWrite;
      nextToWrite := 0;
      state := Swapped(old(state));
    }

    /** Passes one buffer to the log file, whose calls of fwrite behave as `calls` says. */
    method WriteNext(calls: nat -> Fwrite, ghost last: nat) returns (ok: bool)
      requires Valid() && state.phase.Writing? && nextToWrite < |buffersToWrite|
      requires Stops(calls, |Bytes(state.toWrite[state.next])|, last)
      modifies this`nextToWrite, this`state, output
      ensures Valid()
      ensures var len := |Bytes(old(state).toWrite[old(state).next])|;
              state == Apply(old(state), WriteBuffer(Taken(calls, len, last)))
      ensures ok <==> state.lost == old(state.lost)
      ensures (forall j: nat :: !calls(j).error) ==> ok
    {
      var buffer := buffersToWrite[nextToWrite];
      assert Retired(buffer, state.toWrite[state.next]);
      var bytes := buffer.data[..buffer.Length()];
      ok := output.Append(bytes, calls, last);
      nextToWrite := nextToWrite + 1;
      state := Apply(state, WriteBuffer(Taken(calls, |bytes|, last)));
    }

    method ClearAndFlush()
      requires Valid() && Enabled(state, AsyncLogProtocol.ClearAndFlush)
      modifies this`buffersToWrite, this`nextToWrite, this`state, output
      ensures Valid() && state == Apply(old(state), AsyncLogProtocol.ClearAndFlush)
    {
      buffersToWrite, nextToWrite := [], 0;
      output.Flush();
      state := Apply(state, AsyncLogProtocol.ClearAndFlush);
    }

    /** Any number of appends by producers. */
    method AppendAll(lines: seq<Line>)
      requires Valid() && Inv(state) && forall line | line in lines :: |line| <= INT_MAX
      modifies this, Repr
      ensures Valid() && Inv(state) && fresh(Repr - old(Repr))
      ensures Fed(old(state), state, lines)
    {
      for i := 0 to |lines|
        invariant Valid() && fresh(Repr - old(Repr))
        invariant state == AppendedTo(old(state), lines[..i])
      {
        ghost var before := Repr;
        assert lines[..i + 1][..i] == lines[..i];
        Append(lines[i]);
        assert Repr - old(Repr) <= (Repr - before) + (before - old(Repr));
      }
      assert lines[..|lines|] == lines;
      AppendedIsFed(old(state), lines);
      AppendedKeepsInv(old(state), lines);
    }

    /**
     The writing loop, while producers append `meanwhile(i)` before buffer `i` is written and
     for which fwrite does `calls(i)`. Without an error nothing is lost.
     */
    method WriteAll(calls: nat -> nat -> Fwrite, meanwhile: nat -> seq<Line>) returns (ok: bool)
      requires Valid() && Inv(state) && state.phase.Writing?
      requires forall i: nat, j: nat :: calls(i)(j).n > 0 || calls(i)(j).error
      requires forall i: nat, line :: line in meanwhile(i) ==> |line| <= INT_MAX
      modifies this, Repr
      ensures Valid() && Inv(state) && fresh(Repr - old(Repr))
      ensures Onwards(old(state), state) && state.next == |state.toWrite|
      ensures ok <==> state.lost == old(state.lost)
      ensures (forall i: nat, j: nat :: !calls(i)(j).error) ==> ok
    {
      ok := true;
      AppendAll(meanwhile(nextToWrite));
      FedIsOnwards(old(state), state, meanwhile(old(nextToWrite)));
      while nextToWrite < |buffersToWrite|
        invariant Valid() && Inv(state) && fresh(Repr - old(Repr))
        invariant Onwards(old(state), state)
        invariant ok <==> state.lost == old(state.lost)
        invariant (forall i: nat, j: nat :: !calls(i)(j).error) ==> ok
        decreases |state.toWrite| - state.next
      {
        ghost var before := Repr;
        var whole := WriteAndAppend(calls(nextToWrite), meanwhile(nextToWrite + 1));
        ok := ok && whole;
        assert Repr - old(Repr) <= (Repr - before) + (before - old(Repr));
      }
    }

    /** One buffer written, and what producers append until the next one. */
    method WriteAndAppend(calls: nat -> Fwrite, lines: seq<Line>) returns (ok: bool)
      requires Valid() && Inv(state) && state.phase.Writing? && nextToWrite < |buffersToWrite|
      requires forall j: nat :: calls(j).n > 0 || calls(j).error
      requires forall line | line in lines :: |line| <= INT_MAX
      modifies this, Repr
      ensures Valid() && Inv(state) && fresh(Repr - old(Repr))
      ensures Onwards(old(state), state)
      ensures state.next == old(state.next) + 1
      ensures ok <==> state.lost == old(state.lost)
      ensures (forall j: nat :: !calls(j).error) ==> ok
    {
      ok := WriteProgressing(calls);
      ghost var written := state;
      AppendAll(lines);
      FedIsOnwards(written, state, lines);
      OnwardsTwice(old(state), written, state);
    }

    /** One buffer written by calls of fwrite that make progress. */
    method WriteProgressing(calls: nat -> Fwrite) returns (ok: bool)
      requires Valid() && Inv(state) && state.phase.Writing? && nextToWrite < |buffersToWrite|
      requires forall j: nat :: calls(j).n > 0 || calls(j).error
      modifies this`nextToWrite, this`state, output
      ensures Valid() && Inv(state) && Onwards(old(state), state)
      ensures state.next == old(state.next) + 1
      ensures ok <==> state.lost == old(state.lost)
      ensures (forall j: nat :: !calls(j).error) ==> ok
    {
      ghost var len := |Bytes(state.toWrite[state.next])|;
      ghost var last := AlwaysStops(calls, len);
      StepInv(state, WriteBuffer(Taken(calls, len, last)));
      WriteOwes(state, Taken(calls, len, last));
      ok := WriteNext(calls, last);
    }

    /** The wait, while producers append, and the rest of the critical section. */
    method WaitAndTakeOver(waiting: seq<Line>)
      requires Valid() && Inv(state) && state.phase.Waiting?
      requires forall line | line in waiting :: |line| <= INT_MAX
      modifies this, Repr
      ensures Valid() && Inv(state) && fresh(Repr - old(Repr))
      ensures state.phase.Writing? && state.lost == old(state.lost)
      ensures state.accepted == old(state.accepted) + Kept(waiting)
      ensures Due(state) == state.accepted
    {
      AppendAll(waiting);
      ghost var before := Repr;
      WokenState(state);
      ReturnFromWait();
      assert Repr - old(Repr) <= (Repr - before) + (before - old(Repr));
    }

    /** The critical section of the consumer; while it waits, if it does, producers append `waiting`. */
    method TakeOver(waiting: seq<Line>)
      requires Valid() && Inv(state) && state.phase.Entering?
      requires forall line | line in waiting :: |line| <= INT_MAX
      modifies this, Repr
      ensures Valid() && Inv(state) && fresh(Repr - old(Repr))
      ensures state.phase.Writing? && state.lost == old(state.lost)
      ensures state.accepted == old(state.accepted) + if |old(buffersVector)| == 0 then Kept(waiting) else []
      ensures Due(state) == state.accepted
    {
      EnteredState(state);
      var waits := EnterLock();
      if waits {
        WaitAndTakeOver(waiting);
      } else {
        NothingMore(state.accepted);
      }
    }

    /**
     An iteration of the consumer loop, while producers append before, between and after the
     writes. What was accepted when the buffers were taken over has been passed on and
     flushed, and is what the file holds unless a write has ever failed.
     */
    method Iterate(calls: nat -> nat -> Fwrite, waiting: seq<Line>, meanwhile: nat -> seq<Line>)
        returns (ok: bool)
      requires Valid() && Inv(state) && state.phase.Entering?
      requires forall i: nat, j: nat :: calls(i)(j).n > 0 || calls(i)(j).error
      requires forall line | line in waiting :: |line| <= INT_MAX
      requires forall i: nat, line :: line in meanwhile(i) ==> |line| <= INT_MAX
      modifies this, Repr
      ensures Valid() && Inv(state) && fresh(Repr - old(Repr)) && state.phase.AtTop?
      ensures state.sent == old(state.accepted) + if |old(buffersVector)| == 0 then Kept(waiting) else []
      ensures state.sent <= state.accepted && output.flushed == |output.file|
      ensures ok <==> state.lost == old(state.lost)
      ensures (forall i: nat, j: nat :: !calls(i)(j).error) ==> ok
      ensures state.lost == 0 ==> output.file == Bytes(state.sent)
    {
      TakeOver(waiting);
      ghost var before := Repr;
      ok := WriteAndClear(calls, meanwhile);
      assert Repr - old(Repr) <= (Repr - before) + (before - old(Repr));
    }

    /** The part of an iteration behind the critical section. */
    method WriteAndClear(calls: nat -> nat -> Fwrite, meanwhile: nat -> seq<Line>) returns (ok: bool)
      requires Valid() && Inv(state) && state.phase.Writing?
      requires forall i: nat, j: nat :: calls(i)(j).n > 0 || calls(i)(j).error
      requires forall i: nat, line :: line in meanwhile(i) ==> |line| <= INT_MAX
      modifies this, Repr
      ensures Valid() && Inv(state) && fresh(Repr - old(Repr)) && state.phase.AtTop?
      ensures state.sent == Due(old(state)) && old(state.accepted) <= state.accepted
      ensures output.flushed == |output.file|
      ensures ok <==> state.lost == old(state.lost)
      ensures (forall i: nat, j: nat :: !calls(i)(j).error) ==> ok
      ensures state.lost == 0 ==> output.file == Bytes(state.sent)
    {
      ok := WriteAll(calls, meanwhile);
      ClearedState(state);
      ClearAndFlush();
    }

    /** One critical section, or one buffer written of which the file takes what the event says. */
    method Section(e: Event)
      requires Valid() && Enabled(state, e) && (e.Append? ==> |e.line| <= INT_MAX)
      modifies this, Repr
      ensures Valid() && fresh(Repr - old(Repr))
      ensures state == Apply(old(state), e)
    {
      match e
      case Append(line) => Append(line);
      case Stop => Shutdown();
      case TestRunning => var _ := ContinueLoop();
      case Enter => var _ := EnterLock();
      case WakeUp => ReturnFromWait();
      case WriteBuffer(taken) =>
        var calls := k => Fwrite(taken, true);
        ghost var len := |Bytes(state.toWrite[state.next])|;
        assert Taken(calls, len, 1) == taken;
        var _ := WriteNext(calls, if len == 0 then 0 else 1);
      case ClearAndFlush => ClearAndFlush();
    }

    /** Any interleaving of producers and consumer is a run of the protocol, and the objects follow it. */
    method Replay(events: seq<Event>)
      requires Valid() && Possible(state, events)
      requires forall e | e in events :: e.Append? ==> |e.line| <= INT_MAX
      modifies this, Repr
      ensures Valid() && fresh(Repr - old(Repr))
      ensures state == Reached(old(state), events)
    {
      var i := 0;
      while i < |events|
        invariant 0 <= i <= |events|
        invariant Valid() && Possible(state, events[i..]) && fresh(Repr - old(Repr))
        invariant Reached(state, events[i..]) == Reached(old(state), events)
      {
        assert events[i..][1..] == events[i + 1..];
        assert events[i] in events;
        Section(events[i]);
        i := i + 1;
      }
    }
  }

  /** The swap makes everything accepted due. */
  lemma SwapTakesAll(s: State)
    requires Inv(s) && !s.phase.Writing?
    ensures Due(Swapped(s)) == s.accepted
  {
    var s' := Swapped(s);
    SwapConserves(s);
    assert Unwritten(s') == s'.toWrite == s'.toWrite[0..];
    assert InMemory(s') == Flatten(s'.toWrite);
  }

  lemma EnteredState(s: State)
    requires Inv(s) && s.phase.Entering?
    ensures var s' := Apply(s, Enter);
            && Inv(s') && s'.accepted == s.accepted && s'.lost == s.lost
            && (if s.queued == [] then s'.phase.Waiting? else s'.phase.Writing? && Due(s') == s.accepted)
  {
    StepInv(s, Enter);
    SwapTakesAll(s);
  }

  lemma WokenState(s: State)
    requires Inv(s) && s.phase.Waiting?
    ensures var s' := Apply(s, WakeUp);
            && Inv(s') && s'.phase.Writing? && s'.accepted == s.accepted && s'.lost == s.lost
            && Due(s') == s.accepted
  {
    StepInv(s, WakeUp);
    SwapTakesAll(s);
  }

  lemma NothingMore(lines: seq<Line>)
    ensures lines + [] == lines
  {}

  lemma ClearedState(s: State)
    requires Inv(s) && s.phase.Writing? && s.next == |s.toWrite|
    ensures var s' := Apply(s, AsyncLogProtocol.ClearAndFlush);
            && Inv(s') && s'.phase.AtTop? && s'.sent == Due(s)
            && (s'.lost == 0 ==> s'.emitted == Bytes(s'.sent))
  {
    StepInv(s, AsyncLogProtocol.ClearAndFlush);
    assert s.toWrite[s.next..] == [];
  }

  /** One logging statement: what is inserted into its stream goes to the pipeline when it ends. */
  class Logger {
    const stream: LogStream

    constructor ()
      ensures stream.Valid() && stream.texts == []
      ensures fresh(stream) && fresh(stream.buffer) && fresh(stream.buffer.data)
    {
      stream := new LogStream();
    }

    /** The destructor. A record that a stream has built is never dropped or cut. */
    method Finish(log: AsyncLogging)
      requires stream.Valid() && log.Valid() && {stream.buffer, stream.buffer.data} !! log.Repr
      modifies log, log.currentBuffer, log.currentBuffer.data
      ensures log.Valid() && fresh(log.Repr - old(log.Repr))
      ensures log.state == Apply(old(log.state), Append(Streamed(stream.texts)))
      ensures log.state.accepted == old(log.state.accepted) + [old(stream.buffer.Contents())]
    {
      log.Append(stream.buffer.data[..stream.buffer.Length()]);
    }
  }
}
