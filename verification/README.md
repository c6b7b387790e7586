# A verified model of the server core

A small epoll server in the style of muduo, with an HTTP front end, an asynchronous
logger and a bundled load generator. This project models the five parts of it that carry
state over unbounded runs, and proves what their users rely on.

- **Ring buffer** (`LineFraming`, `CircularBuffers`). `CircularBuffer` refines a plain
  byte FIFO in every state, wrapped or not, growing or not. The line reader is specified
  on the FIFO, and what it delivers over any interleaving of appends and reads is a
  function of the byte stream alone. Space and copying costs are bounded over any run.
- **Cross-thread task queue** (`EventLoopProtocol`, `EventLoopProgress`, `EventLoops`).
  One loop thread and any number of other threads as a transition system, one event for
  each atomic section. No wakeup is lost, callbacks run exactly once and in order, and a
  stored quit leads to the exit. The class has one method for each section, and each
  method is proved to be one step of the transition system.
- **Log pipeline** (`LogBuffers`, `AsyncLogProtocol`, `AsyncLoggings`). Many producers,
  one consumer, double buffering, short writes. The file followed by what is in memory is
  the stream of accepted lines exactly when no write failed, and staleness is bounded by
  one consumer iteration.
- **Timer queue** (`TimerRuns`, `TimerSchedules`). A drain whose callbacks add timers
  while it runs, over a binary heap with the comparator of the source. Every timer fires
  exactly once if and only if no callback adds a timer earlier than the one firing.
- **HTTP printer and parser** (`HttpParsing`, `HttpRequests`, `WebBench`,
  `HttpRoundTrip`). `build_request` on fixed C arrays, the request parser on its buffer,
  and an if-and-only-if round trip between the two.

`Sequences` holds the facts about finite sequences the others share, `Limits` the width of
the C++ `int`.

## How to read the model

A byte is a `char`. Functions such as `LineFraming.ParsedLine`, `EventLoopProtocol.Apply`,
`TimerRuns.PushAll` or `HttpParsing.ParseRequest` are specifications; the methods of the
classes are written as the source writes them, with its loops and index arithmetic, and
their `ensures` clauses tie the new fields to those functions. In each concurrent part
the class has one method for each atomic section, and `Replay` shows that any sequence of
events the protocol allows can be carried out by these methods with the fields following
it, so the theorems about runs are theorems about those fields. `EventLoops` also composes
the sections into the functions of the source.

The environment is a parameter. The poll returns any list of channels, empty for EINTR,
and contains the wakeup channel only when the counter is positive. A call of fwrite takes
any number of bytes and may report an error. The condition variable wakes at any time.
Timer callbacks are an arbitrary function from the firings so far to the timers they add.

## Where the code differs from what a reader might expect

Each of these is proved, not worked around.

- A `"\n"` that is not preceded by a `'\r'` with a byte in front of it blocks
  `CircularBuffer::ParseLine` for good; a bare `"\r\n"` does this too
  (`LineFraming.StuckForever`, `LineFraming.LinesDelivered`).
- `CircularBuffer::ReadBytesBy` past the content makes stale slots readable again, and the
  content itself a second time behind them (`CircularBuffers.CircularBuffer.ReadBytesBy`).
- A quit completed before `Loop` clears the flag is lost (`EventLoopProtocol.QuitFlagRemembers`,
  with a run that loses one in `EventLoopProtocol.EarlyQuitIsLost`).
- The lines accepted after the last swap are never written, and no others are missing
  (`AsyncLogProtocol.LostAtExit`, with a run that loses one in `AsyncLogProtocol.LineIsLost`);
  a line that just fits an empty buffer is dropped (`AsyncLogProtocol.NoneDropped`, and
  `AsyncLogProtocol.FullLineIsDropped` for 4,000,000 bytes).
- A timer callback that adds an earlier timer has that one removed unfired and is itself
  called again (`TimerRuns.EarlierTimerIsLost`).
- `Buffer::ReadByLine` says that no line is left exactly when the buffer has no free space;
  otherwise the rest comes back as if it were a line (`HttpRequests.Buffer.ReadByLine`).
- `HttpRequest::ParseRequest` returns `NO_REQUEST` for a complete GET that fills its buffer:
  the state is then `PARSE_COMPLETE`, and only a further line makes the call say so
  (`HttpRoundTrip.NextLineDecides`). That line is consumed: of two requests sent back to back
  the second one loses its request line (`HttpRoundTrip.SecondLosesItsLine`). With free space
  in the buffer whatever is unterminated, even nothing, is that line and the outcome is
  `GOOD_REQUEST` (`HttpRoundTrip.RoomyRoundTripIff`); a request that is not complete then
  leaves the read index past the write index (`HttpRequests.HttpRequest.ParseRequest`).
- A header line is taken in whole if and only if a blank follows its first ':'
  (`HttpParsing.FieldLosslessIff`), although section 3.2 of RFC 7230 makes the blank optional.
  Without it the first byte of the value is dropped (`HttpParsing.ValueLosesByte`); without
  a ':' the position becomes -1 and the line is stored under itself with its own tail as the
  value (`HttpParsing.LineWithoutColon`). A line that ends in its first ':' throws.

## Model

| member | source | states |
|---|---|---|
| LineFraming.ParseConsumesOneLine | include/CircularBuffer.h:44-68 | a read that consumes removes exactly its non-empty, '\n'-free line and that line's CRLF; it returns the empty string if and only if it consumes nothing |
| LineFraming.LaterBytesDoNotMatter | include/CircularBuffer.h:44-68 | only the first '\n' counts: bytes appended behind it change neither the line it ends, nor what is left in front of them, nor whether the reader is stuck |
| LineFraming.FramesOfPrefix | include/CircularBuffer.h:44-68 | the lines of a longer stream are the lines of its first part followed by those of what that part leaves over and the rest |
| LineFraming.StepKeepsStream | include/CircularBuffer.h:44-114 | one append or one read moves at most one line from the stream to the results and leaves lines, residue and bytes of the whole as they were |
| LineFraming.ChunkingIndependence | include/CircularBuffer.h:44-114 | for any byte stream, any cut into appends and any interleaving of reads: lines delivered, then lines still in the content, are the lines of the uncut stream |
| LineFraming.StreamConserved | include/CircularBuffer.h:44-114 | delivered lines re-encoded, followed by the content, equal the initial content followed by all bytes appended |
| LineFraming.DrainDeliversEverything | include/CircularBuffer.h:44-68 | as many reads as there are lines deliver all of them and leave the residue |
| LineFraming.DrainAnyStream | include/CircularBuffer.h:44-114 | the same at the end of any run that started empty |
| LineFraming.StuckForever | include/CircularBuffer.h:50-58 | once the first '\n' is not a line end, no later run of appends and reads delivers a line or consumes a byte |
| LineFraming.FramesOfEncoding | include/CircularBuffer.h:44-68 | of CRLF-encoded '\n'-free lines the reader finds all up to the first empty one, leaves the encoding of the others, and is then stuck if and only if one is empty |
| LineFraming.LinesInOrder | include/CircularBuffer.h:44-114 | while encoded lines arrive in any chunks: what is delivered is a prefix of the lines, and delivered plus buffered bytes are the bytes appended |
| LineFraming.LinesDelivered | include/CircularBuffer.h:44-114 | once everything has arrived, one read per line delivers all lines and empties the buffer if and only if no line is empty |
| LineFraming.RunsCompose | include/CircularBuffer.h:44-114 | results and content of two runs in sequence are those of the runs one after the other |
| CircularBuffers.WindowIsTwoRuns | include/CircularBuffer.h:118-136 | the content between the indices is one run of slots, or the tail and then the head of the vector when it wraps |
| CircularBuffers.WindowFilled | include/CircularBuffer.h:109-113 | while one slot stays free, writing at the wrapping index appends exactly those bytes to the content |
| CircularBuffers.WindowRelocated | include/CircularBuffer.h:97-107 | after growth, with the wrapped prefix moved behind the old end, the content is what it was |
| CircularBuffers.WindowTurned | include/CircularBuffer.h:138-141 | for any number of bytes, full turns not counting: within the content they are dropped from its front; past it stale slots come first and then the whole content again |
| CircularBuffers.LineConsumed | include/CircularBuffer.h:50-58 | moving the read index past the first '\n' is what consuming the line means on the content |
| CircularBuffers.VerdictAt | include/CircularBuffer.h:50-58 | at the first '\n' the test on the bytes scanned so far is the specification's verdict on the content |
| CircularBuffers.AppendStaysBalanced | include/CircularBuffer.h:95-113 | growing is paid for by the size it adds: with size within three times the peak content (or the initial size) and cost within appended + 2·(size − initial) before, both hold after |
| CircularBuffers.CircularBuffer.constructor | include/CircularBuffer.h:17-24 | an empty content in a vector of the given size |
| CircularBuffers.CircularBuffer.ReadableBytes | include/CircularBuffer.h:27-37 | the length of the content |
| CircularBuffers.CircularBuffer.WriteableBytes | include/CircularBuffer.h:39-42 | the room left when one slot stays free |
| CircularBuffers.CircularBuffer.ReadableSpace | include/CircularBuffer.h:118-136 | two spans inside the vector whose bytes, in order, are the content |
| CircularBuffers.CircularBuffer.Decide | include/CircularBuffer.h:50-58 | at the first '\n' returns the specified line and leaves the specified content |
| CircularBuffers.CircularBuffer.ParseLine | include/CircularBuffer.h:44-68 | on every ring, over-read ones included, the index loop with wrap-around returns the specified line and leaves the specified content, and terminates |
| CircularBuffers.CircularBuffer.Resize | include/CircularBuffer.h:98 | old slots are kept, each counted as one byte moved |
| CircularBuffers.CircularBuffer.Grow | include/CircularBuffer.h:97-106 | content unchanged, size 2·old + len, moves counted one by one, no live byte overwritten |
| CircularBuffers.CircularBuffer.Reserve | include/CircularBuffer.h:95-108 | room for the data with the content unchanged, growing if and only if there was none, with the exact cost of growing |
| CircularBuffers.CircularBuffer.CopyIn | include/CircularBuffer.h:108-113 | with room, the copying loop appends the data whether or not it wraps |
| CircularBuffers.CircularBuffer.Append | include/CircularBuffer.h:70-114 | content' = content + data on every ring, wrapped or not, growing or not, over-read or not; the bytes copied are the data, and when it grows every old slot and the wrapped prefix once more; size, peak and appended bytes are stated the same way, indices stay below the size with one slot free |
| CircularBuffers.CircularBuffer.ReadBytesBy | include/CircularBuffer.h:138-141 | for any size: drops exactly that many bytes when they are there; past the content, stale slots become readable and the content comes again behind them |
| CircularBuffers.Peak | include/CircularBuffer.h:44-114 | the longest content during a run: it bounds every one of them and is attained |
| CircularBuffers.Replay | include/CircularBuffer.h:44-114 | a ring driven by any sequence of appends and reads returns and holds what the run on plain content says; if it was never over-read, the peak is that of the run, size ≤ max(initial, 3·peak), and bytes moved by resize, relocation and data ≤ 7·bytes appended |
| CircularBuffers.Run | include/CircularBuffer.h:17-114 | the same for every run of a new buffer, in terms of the run alone |
| EventLoopProtocol.StepInOrder | src/EventLoop.cc:108-118 | every step keeps: executed, then rest of the batch, then pending, are the pushes in their order |
| EventLoopProtocol.StepLabelled | src/EventLoop.cc:108-113 | every step keeps each thread's pushes numbered 0, 1, 2, … in the enqueue order |
| EventLoopProtocol.StepExclusive | src/EventLoop.cc:110-113 | every step keeps the mutex with the one thread that is inside its critical section |
| EventLoopProtocol.StepWorkAnnounced | src/EventLoop.cc:63-118 | every step keeps: work the coming swap does not cover has a positive counter or a thread in front of its Wakeup |
| EventLoopProtocol.StepQuitAnnounced | src/EventLoop.cc:86-93 | every step keeps: a loop at the poll with the quit flag set has a positive counter or a thread in front of its Wakeup |
| EventLoopProtocol.RunInv | src/EventLoop.cc:63-194 | all five invariants hold after any run, by any number of threads in any interleaving |
| EventLoopProtocol.RunGoesOn | src/EventLoop.cc:63-194 | the empty run is one, and every step that is enabled where a run has got to carries it on |
| EventLoopProtocol.AnyThreadCanQueue | src/EventLoop.cc:108-118 | in every state, whatever the loop thread does and however much is queued, an idle thread can queue while the mutex is free: the callback ends the queue, the counter is written, nothing else changes |
| EventLoopProtocol.AnyThreadCanQuit | src/EventLoop.cc:86-93 | in every state an idle thread can quit: the flag is set, the counter is written, nothing else changes |
| EventLoopProtocol.BegunCallGoesOn | src/EventLoop.cc:110-116 | once begun, a call is never held up: the push and the Wakeup are possible in every state |
| EventLoopProtocol.AnyPollCanReturn | src/EventLoop.cc:72 | the poll can return any list, with the wakeup channel if and only if the counter is positive |
| EventLoopProtocol.NoLostWakeup | src/EventLoop.cc:63-118 | in every reachable state asleep at the poll with counter 0, pending work means a thread between push and Wakeup, a set quit flag one between store and Wakeup; with all others idle everything queued has run |
| EventLoopProtocol.ExactlyOnceInOrder | src/EventLoop.cc:183-194 | in every reachable state what ran is a prefix of the pushes, each thread's own callbacks ran as its first few, once each and in its order, never with the loop thread holding the mutex |
| EventLoopProtocol.MutualExclusion | src/EventLoop.cc:108-113 | no two threads are inside their critical sections together |
| EventLoopProtocol.QuitFlagRemembers | src/EventLoop.cc:63-93 | after any run the flag is set if and only if some store came after the last clearing by Loop (or it was set and never cleared) |
| EventLoopProtocol.EarlyQuitIsLost | src/EventLoop.cc:65-93 | a concrete run: a quit completed before the start, after which the loop is at its poll with the flag cleared |
| EventLoopProgress.QuittingMakesProgress | src/EventLoop.cc:63-93 | once quitting, every loop-thread step decreases (phases left, work left) lexicographically and no other step moves the loop back |
| EventLoopProgress.AtMostOnePollAfterQuit | src/EventLoop.cc:63-84 | in any run after a quit at most one poll happens, and only if the loop was already at it |
| EventLoopProgress.QuittingStaysAwake | src/EventLoop.cc:63-93 | a quitting loop that is not asleep is not asleep after any run |
| EventLoopProgress.CompletedQuitKeepsAwake | src/EventLoop.cc:86-93 | once a thread has completed Quit on a started loop, the loop is never at the poll with counter 0, whatever happens between its store and its Wakeup and whatever other quits are under way |
| EventLoopProgress.QuittingLoopIsBounded | src/EventLoop.cc:63-84 | in any run after a quit the loop thread takes no more steps than the work it has and is given, and has none left exactly when it has exited |
| EventLoopProgress.NextMove | src/EventLoop.cc:63-194 | unless the loop sleeps with nothing queued and no quit stored, some step is possible: the loop thread's own, or the one that ends its wait for the mutex or the counter |
| EventLoopProgress.QuitReachesExit | src/EventLoop.cc:63-93 | from every state with a quit stored after the start there is a run to the exit in which the poll only ever returns because the eventfd is readable |
| EventLoopProgress.QueuedCallbacksMustRun | src/EventLoop.cc:63-118 | in every run, with any polls and any interleaving, the loop thread takes at most as many steps as there was work and was added before everything queued at the start has run, or it has exited |
| EventLoopProgress.QueuedCallbacksRun | src/EventLoop.cc:95-118 | and those steps are always possible: from every state there is a run to it in which polls only return because the eventfd is readable, unless a quit makes the loop exit first |
| EventLoopProgress.TurnRunsQueued | src/EventLoop.cc:72-81 | however a turn is disturbed, what was queued while the loop was handling events or about to swap has run when it is next at its condition, at the poll, or gone |
| EventLoopProgress.BatchIsExact | src/EventLoop.cc:183-194 | `DoPendingFunctors` under any interleaving: at its end exactly what was queued at its swap has run, everything queued when it was called included, and what was queued later is what is left |
| EventLoops.EventLoop.constructor | include/EventLoop.h:50-68 | fields of a loop not started, in the initial state of the protocol |
| EventLoops.CanQueue | src/EventLoop.cc:108-118 | what `QueueInLoop` requires holds of every idle thread while the mutex is free, with the state it then returns in |
| EventLoops.CanQuit | src/EventLoop.cc:86-93 | what `Quit` requires holds of every idle thread |
| EventLoops.EventLoop.DoPendingFunctors | src/EventLoop.cc:183-194 | left alone, runs exactly what was queued, once and in order, leaves the queue empty and the mutex free, and sets the quit flag if and only if one of the callbacks does |
| EventLoops.EventLoop.Turn | src/EventLoop.cc:67-83 | left alone, one turn from the poll to the condition runs everything queued when the poll returned and goes on to the next poll if and only if nobody has quit |
| EventLoops.EventLoop.Loop | src/EventLoop.cc:63-84 | left alone, forgets a quit from before, runs everything queued in its first turn, and exits after the first turn in which a handler or callback quits, and not earlier, for any polls that can happen |
| EventLoops.EventLoop.QueueInLoop | src/EventLoop.cc:108-118 | whatever other threads and the loop thread do before, inside and behind the critical section, the callback is queued for good behind what was queued before, and when the call returns the loop thread is not asleep; left alone, nothing else changes |
| EventLoops.EventLoop.Quit | src/EventLoop.cc:86-93 | whatever happens between the store and the Wakeup, when another thread's call returns the loop thread is not asleep and, on a started loop, the flag is set; left alone, nothing else changes |
| EventLoops.EventLoop.Replay | src/EventLoop.cc:63-194 | any run of the protocol is carried out by the methods, and the fields follow it |
| LogBuffers.FixedBuffer.Length | include/LogStream.h:32-35 | the length of the contents |
| LogBuffers.FixedBuffer.Available | include/LogStream.h:40-43 | size minus contents, and never zero |
| LogBuffers.FixedBuffer.Append | include/LogStream.h:20-28 | takes a record whole when strictly more room than its length is left, and otherwise not at all |
| LogBuffers.FixedBuffer.Clear | include/LogStream.h:49-53 | empty and all zero |
| LogBuffers.FixedBuffer.constructor | include/LogStream.h:17 | empty, with the whole array free |
| LogBuffers.RecordsAreShort | include/LogStream.h:10-28 | the records streams can hold, whatever is inserted, are exactly the lines of at most 3999 bytes |
| LogBuffers.StreamedIsAll | src/LogStream.cc:113-117 | texts that together leave one byte of the 4000 free are all in the record, in their order, and nothing inserted later takes anything out of it |
| LogBuffers.LogStream.Put | src/LogStream.cc:113-117 | the text is behind what the buffer held if together they are shorter than 4000 bytes, and otherwise the buffer is unchanged; it is always the record of everything inserted |
| LogBuffers.LogStream.PutNumber | src/LogStream.cc:13-21 | the same for a number: the additional look at the room changes nothing |
| LogBuffers.ShortWritesAreInvisible | src/LogFile.cc:22-37 | for any sequence of partial counts, the loop that ends has taken every byte if and only if no short call reported an error |
| LogBuffers.AlwaysStops | src/LogFile.cc:22-37 | if each call takes a byte or reports an error, the loop ends after at most one call per byte |
| LogBuffers.TakenIsTotal | src/LogFile.cc:22-37 | what calls take together is the sum of their counts, and never more than there is |
| LogBuffers.GoodCallsTakeAll | src/LogFile.cc:27-35 | without an error, or when the first call takes all there is whatever its error flag, the loop that ends has taken everything |
| LogBuffers.LogFile.constructor | src/LogFile.cc:5-13 | an empty file and a zero count |
| LogBuffers.LogFile.Append | src/LogFile.cc:20-44 | appends the line once and in order up to the failing call, whole without an error, and flushes exactly on every N-th append, so the unflushed count stays below N |
| AsyncLogProtocol.StepFits | src/AsyncLogging.cc:37-51 | every step keeps one byte of every buffer free |
| AsyncLogProtocol.StepLoopAsserts | src/AsyncLogging.cc:62-86 | every step keeps both assertions of the loop: nothing to write at its top, something to write after the swap |
| AsyncLogProtocol.FileIsPrefixes | src/AsyncLogging.cc:79-85 | over any run, whatever fails, the file grows by a prefix of each buffer passed on, in order, and the lines passed on are those of these buffers |
| AsyncLogProtocol.AppendConserves | src/AsyncLogging.cc:37-51 | an append, with or without a rollover, puts the line behind everything in memory, whole, or drops it whole when no buffer could hold it |
| AsyncLogProtocol.SwapConserves | src/AsyncLogging.cc:66-76 | the swap loses, repeats and reorders nothing in memory |
| AsyncLogProtocol.WriteConserves | src/AsyncLogging.cc:79-82 | writing a buffer takes exactly its lines off the front of what is in memory |
| AsyncLogProtocol.RunInv | src/AsyncLogging.cc:37-88 | all invariants hold after any interleaving of producers and consumer |
| AsyncLogProtocol.RunGoesOn | src/AsyncLogging.cc:37-88 | the empty run is one, and every step that is enabled where a run has got to carries it on |
| AsyncLogProtocol.ServesUntilStopped | src/AsyncLogging.cc:62 | in every run without a stop the consumer is not done, and its loop condition lets it in |
| AsyncLogProtocol.ProducersNeverWait | src/AsyncLogging.cc:24-51 | appending and stopping are possible in every state; the consumer waits if and only if nothing is queued, and a wakeup always swaps |
| AsyncLogProtocol.NoneDropped | src/AsyncLogging.cc:40-49 | all lines appended are kept if and only if each is shorter than an empty buffer |
| AsyncLogProtocol.AcceptedAreLogged | src/AsyncLogging.cc:37-51 | the accepted lines of any run are the ones that fit, in lock order |
| AsyncLogProtocol.CleanLosesNothing | src/LogFile.cc:27-35 | bytes are lost in a run if and only if some write of it failed |
| AsyncLogProtocol.LogConservation | src/AsyncLogging.cc:37-86 | after any run, lines passed on ++ lines in memory are the accepted lines in lock order; file ++ memory equals their bytes if and only if no write failed, and the file is then a prefix of them |
| AsyncLogProtocol.BoundedStaleness | src/AsyncLogging.cc:62-87 | whatever was accepted before an iteration takes the lock has been passed on and flushed whenever the consumer is next at the loop condition or done, over any run in between; with no failed write it is in the file |
| AsyncLogProtocol.NoFinalDrain | src/AsyncLogging.cc:87-88 | once the consumer has left its loop no event changes the file |
| AsyncLogProtocol.LostAtExit | src/AsyncLogging.cc:62-88 | when the consumer is done, exactly the lines accepted since its last swap were never passed on; the file is the whole accepted stream if and only if no write failed and those lines hold no byte |
| AsyncLogProtocol.LineIsLost | src/AsyncLogging.cc:62-88 | a concrete run in which a line is accepted, nothing fails and the file stays empty |
| AsyncLogProtocol.FullLineIsDropped | src/AsyncLogging.cc:40-49 | a line of 4,000,000 bytes is not kept, and no byte is in memory |
| AsyncLogProtocol.ShutdownIsBounded | src/AsyncLogging.cc:62-88 | in every run of a stopped pipeline the consumer takes at most as many steps as there are buffers and appends for, and has none left exactly when it is done |
| AsyncLogProtocol.ConsumerCanStep | src/AsyncLogging.cc:62-88 | until it is done the consumer always has a step it can take |
| AsyncLogProtocol.BuffersStayDense | src/AsyncLogging.cc:40-49 | with records up to a length, every queued buffer is full but for less than that, in every reachable state |
| AsyncLogProtocol.DenseQueue | src/Logger.cc:64-68 | when every line is a record some stream has built, every line is kept whole and k queued buffers carry at least k·(4,000,000 − 3999) bytes |
| AsyncLoggings.AsyncLogging.constructor | src/AsyncLogging.cc:10-18 | the initial state of the protocol |
| AsyncLoggings.AsyncLogging.Append | src/AsyncLogging.cc:37-51 | exactly one append step on the real buffers |
| AsyncLoggings.AsyncLogging.RollOver | src/AsyncLogging.cc:46-47 | the current buffer ends the queue and a fresh empty one is in its place, never null outside the lock |
| AsyncLoggings.AsyncLogging.Shutdown | src/AsyncLogging.cc:24-29 | exactly the stop step |
| AsyncLoggings.AsyncLogging.ContinueLoop | src/AsyncLogging.cc:62 | exactly the test step, with the final flush when it ends the loop |
| AsyncLoggings.AsyncLogging.EnterLock | src/AsyncLogging.cc:66-76 | waits if and only if nothing is queued, and otherwise swaps |
| AsyncLoggings.AsyncLogging.ReturnFromWait | src/AsyncLogging.cc:70-76 | swaps without looking at the queue again, so also after a timeout or a spurious wakeup |
| AsyncLoggings.AsyncLogging.SwapBuffers | src/AsyncLogging.cc:73-77 | all buffers, the current one last, are the consumer's, and there is at least one |
| AsyncLoggings.AsyncLogging.WriteNext | src/AsyncLogging.cc:79-82 | exactly one write step, of which the file takes what its partial writes add up to |
| AsyncLoggings.AsyncLogging.ClearAndFlush | src/AsyncLogging.cc:84-85 | exactly the clear-and-flush step |
| AsyncLoggings.AsyncLogging.TakeOver | src/AsyncLogging.cc:66-76 | waiting or not, with whatever producers append during the wait, everything accepted is due afterwards, and it is what was accepted before and during the wait |
| AsyncLoggings.AsyncLogging.WriteAll | src/AsyncLogging.cc:79-82 | with producers appending before, between and after the writes, and for any partial counts and errors of fwrite that make progress, what was due stays due until everything is written; bytes are lost if and only if the result says so, and never without an error |
| AsyncLoggings.AsyncLogging.Iterate | src/AsyncLogging.cc:62-86 | an iteration among producers, whatever fwrite does: exactly what was accepted when it took the buffers over has been passed on, all the file took is flushed, the file is exactly that if nothing was ever lost, and nothing is lost without an error |
| AsyncLoggings.AsyncLogging.Replay | src/AsyncLogging.cc:37-88 | any run of the protocol is carried out by the methods on real buffers and file, and they follow it |
| AsyncLoggings.Logger.Finish | src/Logger.cc:64-68 | ending a logging statement appends the record its stream has built, which is always accepted whole |
| TimerRuns.Queue.Push | src/TimerSchedule.cc:20-23 | a valid queue with one more timer |
| TimerRuns.TopAfterPushes | include/TimerSchedule.h:28-32 | the top survives additions if and only if none is strictly earlier; otherwise a strictly earlier one replaces it |
| TimerRuns.PopRemovesFired | src/TimerSchedule.cc:34-35 | the pop removes the timer just fired if and only if its callback added nothing earlier, and otherwise a strictly earlier one |
| TimerRuns.PopsConserve | src/TimerSchedule.cc:29-37 | for any callbacks, queued ⊎ added = popped ⊎ left, as multisets |
| TimerRuns.ExactlyOnceIff | src/TimerSchedule.cc:29-37 | queued ⊎ added = fired ⊎ left if and only if no callback of the run added a timer earlier than the one firing |
| TimerRuns.PassLength | src/TimerSchedule.cc:31-36 | for any callbacks a pass is over exactly after as many rounds as timers had expired at entry plus expired ones added meanwhile |
| TimerRuns.PassEndsIff | src/TimerSchedule.cc:29-37 | the length of the passes that can happen is bounded if and only if the number of expired timers added in them is |
| TimerRuns.FiresInOrder | src/TimerSchedule.cc:29-37 | rounds whose callbacks add nothing earlier fire in nondecreasing order, none before its time |
| TimerRuns.LateAddsAreClean | src/TimerSchedule.cc:32-36 | callbacks that add only unexpired timers add none earlier than the one firing, and nothing to the length of the pass |
| TimerRuns.DrainFiresTheExpired | src/TimerSchedule.cc:29-37 | when callbacks add only unexpired timers, a finished pass fired exactly the timers expired at entry with their multiplicities, in order, and left the others plus the added ones |
| TimerRuns.HistoryInOrder | src/TimerSchedule.cc:20-37 | over any number of passes everything ever fired is sorted by expiration, and added = fired ⊎ queued |
| TimerRuns.EarlierTimerIsLost | src/TimerSchedule.cc:34-35 | a concrete pass in which an earlier timer is added: it never fires and the other fires twice |
| TimerSchedules.HeapIsQueue | include/TimerSchedule.h:24-32 | a heap under the comparator stands for a queue with a least timer on top and exactly its entries |
| TimerSchedules.PriorityQueue.Top | src/TimerSchedule.cc:32-34 | a least timer of the heap, the top of the queue it stands for |
| TimerSchedules.PriorityQueue.Emplace | src/TimerSchedule.cc:22 | sifting up refines adding to the queue, and moves the top only for a strictly earlier timer |
| TimerSchedules.PriorityQueue.Pop | src/TimerSchedule.cc:35 | removes exactly the top and restores the heap |
| TimerSchedules.PriorityQueue.SiftDown | src/TimerSchedule.cc:35 | restores the heap below a replaced root and permutes its entries |
| TimerSchedules.TimerSchedule.AddTimer | src/TimerSchedule.cc:20-23 | the queue with the timer added |
| TimerSchedules.TimerSchedule.AddTimers | src/EventLoop.cc:120-125 | a callback's additions one after the other |
| TimerSchedules.TimerSchedule.FireTop | src/TimerSchedule.cc:34-35 | one round: fires the top, lets its callback add, pops whatever is then on top |
| TimerSchedules.TimerSchedule.HandleTimerQueue | src/TimerSchedule.cc:29-37 | for all callbacks with which the passes that can happen are bounded, terminates, and is then a finished run of rounds answered by the callbacks |
| TimerSchedules.TimerSchedule.Replay | src/TimerSchedule.cc:20-37 | any number of passes with a clock that never goes back, and additions in between and by callbacks: a history in the sense of `HistoryInOrder`, whose firings are in order and in which added = fired ⊎ queued |
| TimerSchedules.OneTurnLess | src/TimerSchedule.cc:32-36 | each round lowers the number of expired timers queued or still to be added |
| HttpParsing.CutsTerminated | include/Buffer.h:33-44 | a CRLF-free line in front of its own CRLF is cut off exactly there, even when it ends in '\r' |
| HttpParsing.SplitEncode | include/Buffer.h:33-44 | splitting inverts encoding for CRLF-free lines |
| HttpParsing.SixSpaces | include/HttpRequest.h:109-110 | the characters that separate words are the six of the "C" locale, and none of '!' to '~' |
| HttpParsing.ExtractsFirstWord | include/HttpRequest.h:109-110 | one extraction takes exactly the first white-space-delimited word off the stream |
| HttpParsing.NothingToExtract | include/HttpRequest.h:109-110 | a stream without a word leaves the field as it was |
| HttpParsing.FieldLosslessIff | include/HttpRequest.h:125-126 | key, ": " and value make up a header line that does not throw if and only if a blank follows its first ':' |
| HttpParsing.FieldOf | include/HttpRequest.h:125-126 | for every key without ':', every character behind the ':' and every value, that key and that value |
| HttpParsing.FieldWithoutColon | include/HttpRequest.h:125-126 | every line without a ':' is its own key, with all but its first character as the value |
| HttpParsing.ThrowsAtColonEnd | include/HttpRequest.h:125-126 | `substr` throws if and only if the line is a key and a ':' with nothing behind it |
| HttpParsing.EmptyLine | include/HttpRequest.h:116-122 | an empty line completes a GET, opens the body of a POST, and means nothing to other methods, with anything behind it |
| HttpParsing.HeaderLine | include/HttpRequest.h:123-127 | a header line sets its key, over what it was set to before, and nothing else, with anything behind it |
| HttpParsing.HeaderLineWithoutColon | include/HttpRequest.h:123-127 | the same for a line without a ':' |
| HttpParsing.ColonEndThrows | include/HttpRequest.h:125-126 | a header line that ends in its first ':' ends the call with the exception and leaves the fields |
| HttpParsing.BodyNeverEnds | include/HttpRequest.h:81-84 | a body takes in every line there is, changes no field, and never comes to a verdict |
| HttpParsing.ValueLosesByte | include/HttpRequest.h:125-126 | `Host:ab` is stored as `b` under `Host` |
| HttpParsing.LineWithoutColon | include/HttpRequest.h:125-126 | `abc` is stored as `bc` under `abc` |
| HttpParsing.LosslessLines | include/HttpRequest.h:52-104 | for every parser state and input, the lines taken are the first lines of the input, CRLF-free and never the sentinel; re-encoded and followed by the unread rest they are the input; without a verdict no whole line is left |
| HttpParsing.ParseResumes | include/HttpRequest.h:63-104 | on full buffers, parsing a first part and then what is unread with the rest behind it gives the fields, outcome and unread bytes of parsing in one go; a verdict stands |
| HttpRequests.Buffer.ReadableBytes | include/Buffer.h:77-80 | the number of unread bytes |
| HttpRequests.Buffer.WriteableBytes | include/Buffer.h:81-84 | the free slots behind the write index, none exactly when the buffer is full |
| HttpRequests.Buffer.ReadByLine | include/Buffer.h:33-44 | cuts at the first CRLF; returns the sentinel if and only if there is none and the buffer is full, and otherwise the unterminated rest, with the read index two past the write index |
| HttpRequests.Buffer.Reset | include/Buffer.h:66-70 | nothing unread, bytes untouched |
| HttpRequests.HttpRequest.Reset | include/HttpRequest.h:134-138 | state and headers start over, the other fields keep their values |
| HttpRequests.HttpRequest.TakeIn | include/HttpRequest.h:69-94 | the switch gives a verdict exactly in the complete state or where `substr` throws, without touching a field, and otherwise takes the line in |
| HttpRequests.HttpRequest.ParseRequest | include/HttpRequest.h:63-104 | on every buffer the state machine ends with the outcome, fields and unread bytes of the specification, and terminates; it leaves the read index two past the write index exactly when there is free space and no verdict before the unterminated rest |
| HttpRequests.HttpRequest.ParseRequestLine | include/HttpRequest.h:107-112 | three stream extractions, each keeping its field when the line has no word left |
| HttpRequests.HttpRequest.ParseHeaders | include/HttpRequest.h:114-128 | an empty line completes a GET and opens a POST body; any other line that does not throw adds one header |
| WebBench.Normalised | webbench-1.5/webbench.c:207-210 | OPTIONS and TRACE go out as 1.1, HEAD and reloads through a proxy at least as 1.0, nothing goes down, and nothing goes up without one of these reasons |
| WebBench.NotAUrlVerdict | webbench-1.5/webbench.c:223-227 | a text without "://" is refused as no URL |
| WebBench.VerdictOf | webbench-1.5/webbench.c:228-245 | the verdict on every other text: over 1500 characters, without a proxy not beginning with "http://" in any case, without a '/' behind the scheme, or accepted, in this order |
| WebBench.HttpScheme | webbench-1.5/webbench.c:223-239 | in an accepted direct URL the scheme delimiter is the one of "http://" |
| WebBench.SplitIsLossless | webbench-1.5/webbench.c:239-263 | scheme ++ host ++ optional ":port" ++ path is the URL, no part contains its own delimiter, and the path starts with '/' |
| WebBench.TargetOfUrl | webbench-1.5/webbench.c:246-263 | a direct request asks for the text of the URL from the first '/' behind the scheme on; host and optional ":port" are the text in front of it |
| WebBench.RequestText | webbench-1.5/webbench.c:212-289 | the whole text of a request, literal by literal, for every method, version, proxy and reload setting |
| WebBench.AtoiReads | webbench-1.5/webbench.c:256 | white space, an optional sign and decimal digits are read, and nothing behind them |
| WebBench.PlainText | webbench-1.5/webbench.c:263-289 | a line printed from NUL-free parts is NUL-free and no longer than the room counted for it |
| WebBench.TargetFits | webbench-1.5/webbench.c:228-268 | host and target together are no longer than an accepted URL |
| WebBench.AcceptedIsReady | webbench-1.5/webbench.c:223-263 | an accepted URL whose parts fit their arrays has everything the assembly relies on |
| WebBench.CString.Strcat | webbench-1.5/webbench.c:221 | the C string is extended by the argument and stays terminated inside its array |
| WebBench.CString.Strncpy | webbench-1.5/webbench.c:252-260 | a zeroed array then holds exactly the copied prefix, terminated |
| WebBench.CString.Bzero | webbench-1.5/webbench.c:204-205 | an all-zero array, which holds the empty string |
| WebBench.Client.NormaliseVersion | webbench-1.5/webbench.c:207-210 | the four updates of the version compute the normalised one |
| WebBench.Client.StartRequest | webbench-1.5/webbench.c:204-221 | both arrays cleared, the version normalised, the method and a blank in the request |
| WebBench.Client.ReadPort | webbench-1.5/webbench.c:253-257 | the number in the port text, or 80 |
| WebBench.Client.CopyParts | webbench-1.5/webbench.c:249-261 | the host array holds the host, and the port is replaced when there is one in front of the path |
| WebBench.Client.CopyHost | webbench-1.5/webbench.c:246-267 | without a proxy host and port come from the URL, with one both stay |
| WebBench.Client.AddTarget | webbench-1.5/webbench.c:263-273 | the request is then exactly the encoded first line |
| WebBench.Client.AddHeaders | webbench-1.5/webbench.c:274-289 | the request array holds the given lines followed by exactly the header lines version and flags call for |
| WebBench.Client.AddLines | webbench-1.5/webbench.c:263-289 | the request array holds exactly the encoded request lines |
| WebBench.Client.Assemble | webbench-1.5/webbench.c:246-289 | everything behind the checks builds the whole request inside its array |
| WebBench.Client.BuildRequest | webbench-1.5/webbench.c:199-291 | the verdict of the checks; on acceptance the array holds the encoded request lines for the normalised version and fits with its terminator, for every method, version, proxy and reload setting |
| WebBench.Client.BuiltAsks | webbench-1.5/webbench.c:199-291 | of whatever `BuildRequest` has built, on the URL and the arrays alone: the text of the request in at most 2048 bytes with its terminator; the target is the URL itself through a proxy and otherwise its text from the first '/' on, with host and port in front of it, the port being that number or 80 |
| HttpRoundTrip.ParseKeepsClean | include/HttpRequest.h:63-128 | whatever is parsed, a path never holds white space and a header value never a CRLF |
| HttpRoundTrip.ExtractsWord | include/HttpRequest.h:109-110 | a word in front of white space or the end is extracted whole, with or without a space before it |
| HttpRoundTrip.ThreeWords | include/HttpRequest.h:107-112 | three words of visible characters, with any of the six spaces between them, are the method, the path and the version |
| HttpRoundTrip.FewerWords | include/HttpRequest.h:107-112 | missing words leave their fields as they were |
| HttpRoundTrip.StartLineParses | include/HttpRequest.h:107-112 | a printed request line is parsed back into method, target and version; HTTP/0.9 keeps the old version field |
| HttpRoundTrip.FieldSplits | include/HttpRequest.h:125-126 | a printed header is split at its first ':' into key and value |
| HttpRoundTrip.BlockParses | include/HttpRequest.h:114-128 | parsing a printed header block feeds the parser exactly its lines and leaves nothing unread |
| HttpRoundTrip.BlockUnderstood | webbench-1.5/webbench.c:274-289 | of the header block remain exactly the printed fields, and a GET is complete |
| HttpRoundTrip.RoundTripIff | webbench-1.5/webbench.c:199-291 | for every accepted URL and setting, parsing the printed request gives back method, target, version and exactly the printed headers with nothing unread, if and only if the target has no white space and the printed host no CRLF |
| HttpRoundTrip.VisibleUrlRoundTrips | webbench-1.5/webbench.c:199-291 | for every accepted URL of visible characters the parser ends up with the method, the path as the URL has it, the version and exactly the header fields that were meant, all in literals, and is complete if and only if it was a GET with headers |
| HttpRoundTrip.PrintedPath | webbench-1.5/webbench.c:263-267 | the printed path is the URL through a proxy, and otherwise its text from the first '/' behind the scheme on |
| HttpRoundTrip.ResetIsFresh | include/HttpRequest.h:134-138 | what the round trips start from holds of a new request, and after `Reset` whatever was parsed before |
| HttpRoundTrip.RoomyRoundTripIff | include/HttpRequest.h:63-104 | out of a buffer with free space, the outcome is that the request is good and the fields are those printed if and only if a GET with headers was printed from such a URL |
| HttpRoundTrip.NextLineDecides | include/HttpRequest.h:63-104 | for everything that can follow a printed GET, and both kinds of buffer: its fields are what was printed, and the verdict comes with, and consumes, the next line |
| HttpRoundTrip.SecondLosesItsLine | include/HttpRequest.h:85-89 | of two requests in one buffer, the verdict on the first takes the request line of the second |
| HttpRoundTrip.PrintedIsNotClean | webbench-1.5/webbench.c:239-281 | a request printed from any other URL has fields no parse can produce |
| HttpRoundTrip.SendAndParse | include/HttpRequest.h:63-104 | both equivalences end to end on the fields of the two programs, from `build_request` to `ParseRequest`, with or without free space behind the request, and the path as the URL has it |

## Left out

- System calls, sockets, clocks, threads and memory order: the eventfd is a counter, the poll returns any ready list, fwrite takes any count, one atomic section is one step, and stores to the atomic flags are sequentially consistent.
- Memory allocation: it always succeeds.
- `CircularBuffer` beyond `int`: appends that would grow it past 2,147,483,647 slots, and an initial size of 0, are excluded, since the loops index with `int` and the first read would divide by zero.
- CircularBuffers.CircularBuffer.ReadableSpace: returns the two spans by value; the code returns a pointer to a local array.
- `CircularBuffer::ReadFd` and printing.
- `QueueInLoop` called directly on the loop thread: the source enqueues only through `RunInLoop`, and `calling_pend_functors_flag_` is never assigned, so nothing rests on it.
- `RunInLoop` on the loop thread itself: it runs the callback at once, which is part of the handler or callback that calls it.
- Fairness of the scheduler: EventLoopProgress proves that progress is always possible and bounded, not that the operating system schedules it.
- EventLoops.EventLoop.DoPendingFunctors: is stated for a batch no other thread disturbs; `EventLoopProgress.BatchIsExact` has all interleavings and reaches the fields by `EventLoops.EventLoop.Replay`.
- EventLoops.EventLoop.Turn: is stated for a turn no other thread disturbs; `EventLoopProgress.TurnRunsQueued` has all interleavings.
- EventLoops.EventLoop.Loop: is stated for a loop no other thread disturbs, with its polls given in advance; a handler or a queued callback must quit at some point, since otherwise nothing ends the loop of the source.
- The `AsyncLogging` constructor's latch, the notifications (the wait may end at any time instead), and joining the thread.
- LogBuffers.LogFile.Append: requires that the loop ends, which `LogBuffers.AlwaysStops` gives for calls that take a byte or report an error; `flush_interval_` and `written_bytes_` are never used by the code.
- LogBuffers.FixedBuffer.Append: records longer than the largest `int` are excluded, for which the cast in the source is implementation-defined. `FixedBuffer::Add` and `Current` are left out.
- The text that `LogStream` and `Logger` produce: insertions are given as strings; their lengths and order are modelled, the formatting of numbers and of the header is not.
- TimerSchedules.PriorityQueue.Emplace: `std::priority_queue` is modelled as a textbook binary heap on a sequence; which of several equally early timers comes up first is that heap's choice, and no theorem depends on it except that an equally early addition does not displace the top.
- TimerSchedules.TimerSchedule.HandleTimerQueue: excludes callbacks with which passes of any length can happen (`TimerRuns.PassEndsIff`). The callback of a timer is represented by the timers it adds.
- TimerSchedules.TimerSchedule.Replay: lets callbacks add only timers that have not expired; `TimerRuns.HistoryInOrder` is stated for all that add none earlier than the one firing.
- `Timestamp` is an integer, read once at the start of a pass; `RunAfter`, `RunEvery`, `DelTimer` and the timer descriptor are left out.
- `Buffer::Append`, `ReadFd` and `WriteFd`: `Append` does not advance the write index, so the buffers here are given by their bytes and indices.
- HttpRequests.HttpRequest.ParseRequest: once the read index is past the write index the next search has no valid range; the model stops there with an outcome of its own and says nothing of what the code would do.
- HttpRequests.HttpRequest.ParseHeaders: a line whose first ':' is its last character makes `substr` throw; the outcome says so, but what the header map holds afterwards is unspecified in the source's language version, and the model leaves it unchanged.
- POST bodies, `PARSE_BODY` beyond consuming lines, `BAD_REQUEST` and `INTERNAL_ERROR` (never returned from these states), the commented-out parsers, `ParseState` and printing.
- White space and letter case are those of the "C" locale.
- WebBench.Client.BuildRequest: requires what the source needs to stay inside its arrays, a host shorter than 64 and a port text shorter than 10 characters; the proxy is present or absent, its name plays no part. The error texts and the exit are the verdict.
- The rest of the load generator: options, processes, pipes, signals, timing.
- Channels, connections, acceptor, sockets, the server classes, and the round robin of `EventLoopThreadPool`, which would only add easy members.
