/**
 The growable ring buffer: a vector with one slot kept free, two indices that
 wrap, and a growth path that moves the wrapped prefix behind the old end.
 */
module CircularBuffers {
  import opened Limits
  import opened Sequences
  import opened LineFraming

  // ------------------------------------------------------ slots and indices

  /** The slot an index below twice the capacity falls on. */
  function Slot(i: nat, size: nat): nat
    requires i < 2 * size
  {
    if i < size then i else i - size
  }

  lemma SlotIsRemainder(i: nat, size: nat)
    requires i < 2 * size
    ensures i % size == Slot(i, size)
  {}

  predicate IsRing(slots: string, r: nat, w: nat) {
    r < |slots| && w < |slots|
  }

  function Span(r: nat, w: nat, size: nat): (n: nat)
    requires r < size && w < size
    ensures n < size
  {
    if r <= w then w - r else size - (r - w)
  }

  /** The bytes between the two indices, in reading order. */
  function Window(slots: string, r: nat, w: nat): (content: string)
    requires IsRing(slots, r, w)
    ensures |content| == Span(r, w, |slots|)
    ensures forall i | 0 <= i < |content| :: content[i] == slots[Slot(r + i, |slots|)]
  {
    seq(Span(r, w, |slots|), i requires 0 <= i < Span(r, w, |slots|) => slots[Slot(r + i, |slots|)])
  }

  /** A window is one run of slots, or two when it wraps. */
  lemma WindowIsTwoRuns(slots: string, r: nat, w: nat)
    requires IsRing(slots, r, w)
    ensures Window(slots, r, w) == if r <= w then slots[r..w] else slots[r..] + slots[..w]
  {}

  /** The slots after the first `n` bytes of `data` were written from slot `w` on, wrapping at the end. */
  function Filled(slots: string, w: nat, data: string, n: nat): (filled: string)
    requires w < |slots| && n <= |data| <= |slots|
    ensures |filled| == |slots|
  {
    if n == 0 then slots else Filled(slots, w, data, n - 1)[Slot(w + n - 1, |slots|) := data[n - 1]]
  }

  /** Writing one byte at the write index of a ring that is not full appends it. */
  lemma WindowPush(slots: string, r: nat, w: nat, x: char)
    requires IsRing(slots, r, w) && |Window(slots, r, w)| + 1 < |slots|
    ensures Window(slots[w := x], r, Slot(w + 1, |slots|)) == Window(slots, r, w) + [x]
  {}

  /** As long as one slot stays free, those writes append the bytes to the content. */
  lemma {:induction false} WindowFilled(slots: string, r: nat, w: nat, data: string, n: nat)
    requires IsRing(slots, r, w) && n <= |data| && |Window(slots, r, w)| + |data| < |slots|
    ensures Window(Filled(slots, w, data, n), r, Slot(w + n, |slots|)) == Window(slots, r, w) + data[..n]
  {
    if n > 0 {
      WindowFilled(slots, r, w, data, n - 1);
      var before, v := Filled(slots, w, data, n - 1), Slot(w + n - 1, |slots|);
      WindowPush(before, r, v, data[n - 1]);
      assert data[..n] == data[..n - 1] + [data[n - 1]];
      Assoc(Window(slots, r, w), data[..n - 1], [data[n - 1]]);
    }
  }

  /** Advancing the read index by at most the content's length drops bytes from its front. */
  lemma WindowDrop(slots: string, r: nat, w: nat, n: nat)
    requires IsRing(slots, r, w) && n <= |Window(slots, r, w)|
    ensures Window(slots, Slot(r + n, |slots|), w) == Window(slots, r, w)[n..]
  {}

  /** Advancing past the content turns the ring round: stale slots come first, then all of the content again. */
  lemma WindowPast(slots: string, r: nat, w: nat, n: nat)
    requires IsRing(slots, r, w) && |Window(slots, r, w)| < n < |slots|
    ensures var content, turned := Window(slots, r, w), Window(slots, Slot(r + n, |slots|), w);
            |turned| == |slots| + |content| - n && turned[|slots| - n..] == content
  {}

  lemma Distributes(p: nat, q: nat, length: nat)
    ensures (p + q) * length == p * length + q * length
    ensures q > 0 ==> q * length >= length
  {}

  lemma Division(i: nat, length: nat)
    requires length > 0
    ensures i == (i / length) * length + i % length && i % length < length
  {}

  lemma SameQuotient(p: nat, x: nat, q: nat, m: nat, length: nat)
    requires p * length + x == q * length + m && x < length && m < length
    ensures p == q && x == m
  {
    if p < q {
      Distributes(p, q - p, length);
    } else if q < p {
      Distributes(q, p - q, length);
    }
  }

  lemma RemainderIs(i: nat, q: nat, m: nat, length: nat)
    requires m < length && i == q * length + m
    ensures i % length == m
  {
    Division(i, length);
    SameQuotient(i / length, i % length, q, m, length);
  }

  /** The new read index, full turns not counting. */
  lemma FullTurnsDoNotMatter(r: nat, size: nat, length: nat)
    requires r < length
    ensures size % length < length && (r + size) % length == Slot(r + size % length, length)
  {
    var q, n := size / length, size % length;
    Division(size, length);
    if r + n < length {
      RemainderIs(r + size, q, r + n, length);
    } else {
      Distributes(q, 1, length);
      RemainderIs(r + size, q + 1, r + n - length, length);
    }
  }

  /** What the content becomes when the read index moves on by any number of bytes. */
  lemma WindowTurned(slots: string, r: nat, w: nat, size: nat)
    requires IsRing(slots, r, w)
    ensures (r + size) % |slots| < |slots| && size % |slots| < |slots|
    ensures var content, n := Window(slots, r, w), size % |slots|;
            var turned := Window(slots, (r + size) % |slots|, w);
            if n <= |content| then turned == content[n..]
            else |turned| == |slots| + |content| - n && turned[|slots| - n..] == content
  {
    var content, n := Window(slots, r, w), size % |slots|;
    FullTurnsDoNotMatter(r, size, |slots|);
    if n <= |content| {
      WindowDrop(slots, r, w, n);
    } else {
      WindowPast(slots, r, w, n);
    }
  }

  lemma SmallRemainder(n: nat, length: nat)
    requires n < length
    ensures n % length == n
  {}

  /** Growing: behind a copy of the old slots, the wrapped prefix continues where the old end was. */
  lemma WindowRelocated(slots: string, bigger: string, r: nat, w: nat)
    requires IsRing(slots, r, w) && |slots| + |slots| <= |bigger|
    requires slots <= bigger
    requires w < r ==> forall i | 0 <= i < w :: slots[i] == bigger[|slots| + i]
    ensures Window(bigger, r, if w < r then |slots| + w else w) == Window(slots, r, w)
  {}

  /** The verdict on the first '\n' once the scan has reached it. */
  lemma VerdictAt(content: string, n: nat)
    requires n < |content| && content[n] == '\n'
    requires forall i | 0 <= i < n :: content[i] != '\n'
    ensures if n > 1 && content[n - 1] == '\r'
            then ParsedLine(content) == content[..n - 1] && AfterParse(content) == content[n + 1..]
            else ParsedLine(content) == "" && AfterParse(content) == content
  {
    NewlineUnique(content, n);
  }

  /** Moving the read index past that '\n' is what consumes the line. */
  lemma LineConsumed(slots: string, r: nat, w: nat, n: nat)
    requires IsRing(slots, r, w) && n < |Window(slots, r, w)| && Window(slots, r, w)[n] == '\n'
    requires '\n' !in Window(slots, r, w)[..n]
    ensures var content, next := Window(slots, r, w), (r + n + 1) % |slots|;
            if n > 1 && content[n - 1] == '\r' then
              && next < |slots| && Window(slots, next, w) == AfterParse(content)
              && ParsedLine(content) == content[..n - 1] && |AfterParse(content)| < |content|
            else ParsedLine(content) == "" && AfterParse(content) == content
  {
    var content := Window(slots, r, w);
    assert forall i | 0 <= i < n :: content[i] == content[..n][i];
    VerdictAt(content, n);
    SmallRemainder(n + 1, |slots|);
    WindowTurned(slots, r, w, n + 1);
  }

  // ------------------------------------------------------------ accounting

  /**
   What a buffer has cost so far: the size it was created with, its size, the
   longest content it ever held, the bytes appended to it, and the bytes moved by
   resizing, relocating and copying in.
   */
  datatype Ledger = Ledger(initial: nat, size: nat, peak: nat, appended: nat, copied: nat) {

    predicate Balanced() {
      && 1 <= initial <= size
      && (size == initial || size <= 3 * peak)
      && peak <= appended
      && copied <= appended + 2 * (size - initial)
    }
  }

  /**
   Appending `n` bytes to a content of `used` bytes, of which `wrapped` sit in front of the
   read index: growing is paid for by the size it adds.
   */
  lemma AppendStaysBalanced(l: Ledger, m: Ledger, used: nat, wrapped: nat, n: nat)
    requires l.Balanced() && used < l.size && used <= l.peak && wrapped < l.size
    requires m.initial == l.initial && m.appended == l.appended + n && m.peak == Max(l.peak, used + n)
    requires if l.size - used - 1 < n then m.size == 2 * l.size + n && m.copied == l.copied + n + l.size + wrapped
             else m.size == l.size && m.copied == l.copied + n
    ensures m.Balanced()
  {}

  /** Amortised bounds over any run: space three times the peak, copying seven times the bytes appended. */
  lemma BalancedBounds(l: Ledger)
    requires l.Balanced()
    ensures l.size <= Max(l.initial, 3 * l.peak)
    ensures l.copied <= 7 * l.appended
  {}

  // ------------------------------------------------------------- the class

  class CircularBuffer {
    var buffer: array<char>
    var readIndex: nat
    var writeIndex: nat
    ghost var ledger: Ledger

    /** The indices are inside the vector: all that the operations need. */
    ghost predicate Ring()
      reads this, buffer
    {
      && readIndex < buffer.Length <= INT_MAX
      && writeIndex < buffer.Length
      && ledger.size == buffer.Length
    }

    /** A ring that has only ever been read within its content, so that its costs are accounted for. */
    ghost predicate Valid()
      reads this, buffer
    {
      Ring() && |Content()| <= ledger.peak && ledger.Balanced()
    }

    /** The plain byte FIFO this buffer stands for. */
    ghost function Content(): string
      requires readIndex < buffer.Length && writeIndex < buffer.Length
      reads this, buffer
    {
      Window(buffer[..], readIndex, writeIndex)
    }

    constructor (initialSize: nat := 15)
      requires 1 <= initialSize <= INT_MAX
      ensures Valid() && fresh(buffer)
      ensures Content() == "" && buffer.Length == initialSize
      ensures ledger == Ledger(initialSize, initialSize, 0, 0, 0)
    {
      buffer := new char[initialSize](_ => '\0');
      readIndex, writeIndex := 0, 0;
      ledger := Ledger(initialSize, initialSize, 0, 0, 0);
    }

    function ReadableBytes(): (n: nat)
      requires Ring()
      reads this, buffer
      ensures n == |Content()|
    {
      if readIndex <= writeIndex then writeIndex - readIndex
      else buffer.Length - (readIndex - writeIndex)
    }

    /** One slot stays free, so a full buffer is never mistaken for an empty one. */
    function WriteableBytes(): (n: nat)
      requires Ring()
      reads this, buffer
      ensures n + |Content()| + 1 == buffer.Length
    {
      buffer.Length - ReadableBytes() - 1
    }

    /** The readable bytes as two runs of slots, each given by its start and end. */
    function ReadableSpace(): (spans: ((nat, nat), (nat, nat)))
      requires Ring()
      reads this, buffer
      ensures spans.0.0 <= spans.0.1 <= buffer.Length && spans.1.0 <= spans.1.1 <= buffer.Length
      ensures Content() == buffer[..][spans.0.0..spans.0.1] + buffer[..][spans.1.0..spans.1.1]
    {
      WindowIsTwoRuns(buffer[..], readIndex, writeIndex);
      if readIndex <= writeIndex then ((readIndex, writeIndex), (0, 0))
      else ((readIndex, buffer.Length), (0, writeIndex))
    }

    /** The verdict on the bytes scanned in front of a '\n': consumed with their CRLF, or nothing is. */
    method Decide(scanned: string) returns (line: string)
      requires Ring() && |scanned| < |Content()| && scanned == Content()[..|scanned|]
      requires '\n' !in scanned && Content()[|scanned|] == '\n'
      modifies this`readIndex
      ensures Ring() && (old(Valid()) ==> Valid())
      ensures line == ParsedLine(old(Content()))
      ensures Content() == AfterParse(old(Content()))
    {
      LineConsumed(buffer[..], readIndex, writeIndex, |scanned|);
      if |scanned| > 1 && scanned[|scanned| - 1] == '\r' {
        ghost var rest := AfterParse(Content());
        readIndex := (readIndex + |scanned| + 1) % buffer.Length;
        assert Content() == rest;
        return scanned[..|scanned| - 1];
      }
      return "";
    }

    /**
     Scans for the first '\n' and hands out the line in front of it when a '\r' and at
     least one byte before that precede it. In every other case nothing is consumed.
     */
    method ParseLine() returns (line: string)
      requires Ring()
      modifies this`readIndex
      ensures Ring() && (old(Valid()) ==> Valid())
      ensures line == ParsedLine(old(Content()))
      ensures Content() == AfterParse(old(Content()))
    {
      ghost var content := Content();
      var res := "";
      var checked := readIndex;
      while checked != writeIndex
        invariant readIndex == old(readIndex) && |res| <= |content|
        invariant res == content[..|res|] && '\n' !in res
        invariant checked == Slot(readIndex + |res|, buffer.Length)
        invariant checked == writeIndex <==> |res| == |content|
        decreases |content| - |res|
      {
        assert buffer[checked] == content[|res|];
        if buffer[checked] == '\n' {
          line := Decide(res);
          return;
        }
        res := res + [buffer[checked]];
        checked := checked + 1;
        if checked == buffer.Length {
          checked := 0;
        }
      }
      NewlineUnique(content, |content|);
      line := "";
    }

    /** The reallocation inside `resize`: every old slot moves, the new ones are zero. */
    method Resize(size: nat)
      requires buffer.Length <= size
      modifies this`buffer, this`ledger
      ensures fresh(buffer) && buffer.Length == size
      ensures buffer[..old(buffer.Length)] == old(buffer[..])
      ensures ledger == old(ledger).(copied := old(ledger.copied) + old(buffer.Length))
    {
      var bigger := new char[size](_ => '\0');
      for i := 0 to buffer.Length
        invariant buffer == old(buffer) && buffer[..] == old(buffer[..])
        invariant bigger[..i] == buffer[..i]
        invariant ledger == old(ledger).(copied := old(ledger.copied) + i)
      {
        bigger[i] := buffer[i];
        ledger := ledger.(copied := ledger.copied + 1);
      }
      buffer := bigger;
    }

    /** The growth path: afterwards the content is unchanged, contiguous after the read index, and there is room. */
    method Grow(len: nat)
      requires Ring() && 2 * buffer.Length + len <= INT_MAX
      modifies this
      ensures fresh(buffer) && buffer.Length == 2 * old(buffer.Length) + len
      ensures readIndex == old(readIndex) < buffer.Length && writeIndex < buffer.Length
      ensures Content() == old(Content())
      ensures var moved := if old(writeIndex) < readIndex then old(writeIndex) else 0;
              ledger == old(ledger).(copied := old(ledger.copied) + old(buffer.Length) + moved)
    {
      var pos := buffer.Length;
      Resize(2 * buffer.Length + len);
      ghost var slots := buffer[..pos];
      if writeIndex < readIndex {
        for i := 0 to writeIndex
          invariant fresh(buffer) && buffer.Length == 2 * pos + len
          invariant readIndex == old(readIndex) && writeIndex == old(writeIndex)
          invariant buffer[..pos] == slots
          invariant forall j | 0 <= j < i :: slots[j] == buffer[pos + j]
          invariant ledger == old(ledger).(copied := old(ledger.copied) + pos + i)
        {
          buffer[pos + i] := buffer[i];
          ledger := ledger.(copied := ledger.copied + 1);
        }
        WindowRelocated(slots, buffer[..], readIndex, writeIndex);
        writeIndex := pos + writeIndex;
      } else {
        WindowRelocated(slots, buffer[..], readIndex, writeIndex);
      }
    }

    /** The copying loop and index update at the end of `Append`, once there is room. */
    method CopyIn(data: string)
      requires readIndex < buffer.Length && writeIndex < buffer.Length
      requires |Content()| + |data| < buffer.Length
      modifies this`writeIndex, this`ledger, buffer
      ensures writeIndex < buffer.Length
      ensures Content() == old(Content()) + data
      ensures ledger == old(ledger).(copied := old(ledger.copied) + |data|)
    {
      ghost var slots := buffer[..];
      for i := 0 to |data|
        invariant writeIndex == old(writeIndex)
        invariant buffer[..] == Filled(slots, writeIndex, data, i)
        invariant ledger == old(ledger).(copied := old(ledger.copied) + i)
      {
        SlotIsRemainder(writeIndex + i, buffer.Length);
        buffer[(writeIndex + i) % buffer.Length] := data[i];
        ledger := ledger.(copied := ledger.copied + 1);
      }
      WindowFilled(slots, readIndex, writeIndex, data, |data|);
      assert data[..|data|] == data;
      SlotIsRemainder(writeIndex + |data|, buffer.Length);
      writeIndex := (writeIndex + |data|) % buffer.Length;
    }

    /**
     Appends to the FIFO in every state, growing when needed, wrapped or not. Growing moves
     every old slot and then the wrapped prefix once more; what was copied is what the loops
     have counted.
     */
    method Append(data: string)
      requires Ring()
      requires |data| <= INT_MAX
      requires WriteableBytes() < |data| ==> 2 * buffer.Length + |data| <= INT_MAX
      modifies this, buffer
      ensures Ring() && (old(Valid()) ==> Valid())
      ensures buffer == old(buffer) || fresh(buffer)
      ensures Content() == old(Content()) + data
      ensures buffer.Length ==
              if old(WriteableBytes()) < |data| then 2 * old(buffer.Length) + |data| else old(buffer.Length)
      ensures ledger.copied == old(ledger.copied) + |data| +
              if old(WriteableBytes()) < |data|
              then old(buffer.Length) + (if old(writeIndex) < old(readIndex) then old(writeIndex) else 0)
              else 0
      ensures ledger.initial == old(ledger.initial) && ledger.appended == old(ledger.appended) + |data|
      ensures ledger.peak == if old(ledger.peak) < |Content()| then |Content()| else old(ledger.peak)
    {
      ghost var before, used := ledger, |Content()|;
      ghost var wrapped := if writeIndex < readIndex then writeIndex else 0;
      ghost var accounted := Valid();
      Reserve(|data|);
      CopyIn(data);
      ledger := ledger.(size := buffer.Length,
                        peak := Max(ledger.peak, |Content()|),
                        appended := ledger.appended + |data|);
      if accounted {
        AppendStaysBalanced(before, ledger, used, wrapped, |data|);
      }
    }

    /** Makes room for `len` more bytes, and grows only if there is none. */
    method Reserve(len: nat)
      requires Ring() && (WriteableBytes() < len ==> 2 * buffer.Length + len <= INT_MAX)
      modifies this
      ensures readIndex < buffer.Length <= INT_MAX && writeIndex < buffer.Length
      ensures buffer == old(buffer) || fresh(buffer)
      ensures Content() == old(Content()) && |Content()| + len < buffer.Length
      ensures if old(WriteableBytes()) < len then
                && buffer.Length == 2 * old(buffer.Length) + len
                && ledger == old(ledger).(copied := old(ledger.copied) + old(buffer.Length)
                                                    + if old(writeIndex) < old(readIndex) then old(writeIndex) else 0)
              else buffer.Length == old(buffer.Length) && ledger == old(ledger)
    {
      if WriteableBytes() < len {
        Grow(len);
      }
    }

    /**
     Moves the read index forward, full turns not counting. Within the content this consumes
     bytes; past its end the indices pass each other, stale slots become readable, and
     the whole content comes again behind them.
     */
    method ReadBytesBy(size: nat)
      requires Ring()
      modifies this`readIndex
      ensures Ring()
      ensures old(Valid()) && size % buffer.Length <= |old(Content())| ==> Valid()
      ensures var content, n := old(Content()), size % buffer.Length;
              if n <= |content| then Content() == content[n..]
              else |Content()| == buffer.Length + |content| - n && Content()[buffer.Length - n..] == content
    {
      WindowTurned(buffer[..], readIndex, writeIndex, size);
      readIndex := (readIndex + size) % buffer.Length;
    }
  }

  /** One call on a buffer, with the line it returns when that is not empty. */
  method Apply(b: CircularBuffer, call: Call) returns (lines: seq<string>)
    requires b.Ring()
    requires 3 * (|b.Content()| + |Arriving(call)|) <= INT_MAX
    modifies b, b.buffer
    ensures b.Ring() && (b.buffer == old(b.buffer) || fresh(b.buffer))
    ensures lines == Yield(old(b.Content()), call)
    ensures b.Content() == Step(old(b.Content()), call)
    ensures b.ledger.initial == old(b.ledger.initial)
    ensures b.ledger.appended == old(b.ledger.appended) + |Arriving(call)|
    ensures old(b.Valid()) ==> b.Valid() && b.ledger.peak == Max(old(b.ledger.peak), |b.Content()|)
  {
    lines := [];
    if call.Push? {
      b.Append(call.chunk);
    } else {
      var line := b.ParseLine();
      if line != "" {
        lines := [line];
      }
    }
  }

  function Max(m: nat, n: nat): nat {
    if m < n then n else m
  }

  /** The longest content during a run, its start included. */
  function Peak(content: string, calls: seq<Call>): (peak: nat)
    ensures forall i | 0 <= i <= |calls| :: |After(content, calls[..i])| <= peak
    ensures exists i | 0 <= i <= |calls| :: |After(content, calls[..i])| == peak
    decreases |calls|
  {
    if calls == [] then
      assert After(content, calls[..0]) == content;
      |content|
    else
      var shorter := calls[..|calls| - 1];
      assert forall i | 0 <= i < |calls| :: shorter[..i] == calls[..i];
      assert calls[..|calls|] == calls;
      Max(Peak(content, shorter), |After(content, calls)|)
  }

  /**
   A buffer driven by any calls behaves as the run on plain content says. If it has only
   ever been read within its content, its size over the whole run stays within three
   times the longest content, unless it never grew, and the bytes it has moved within
   seven times the bytes appended.
   */
  method Replay(b: CircularBuffer, calls: seq<Call>) returns (lines: seq<string>)
    requires b.Ring()
    requires 3 * (|b.Content()| + |Pushed(calls)|) <= INT_MAX
    modifies b, b.buffer
    ensures b.Ring() && (old(b.Valid()) ==> b.Valid())
    ensures lines == Delivered(old(b.Content()), calls)
    ensures b.Content() == After(old(b.Content()), calls)
    ensures b.ledger.appended == old(b.ledger.appended) + |Pushed(calls)|
    ensures b.ledger.initial == old(b.ledger.initial)
    ensures old(b.Valid()) ==>
              && b.ledger.peak == Max(old(b.ledger.peak), Peak(old(b.Content()), calls))
              && b.buffer.Length <= Max(b.ledger.initial, 3 * b.ledger.peak)
              && b.ledger.copied <= 7 * b.ledger.appended
  {
    lines := [];
    ghost var start := b.Content();
    for i := 0 to |calls|
      invariant b.Ring() && (b.buffer == old(b.buffer) || fresh(b.buffer))
      invariant lines == Delivered(start, calls[..i])
      invariant b.Content() == After(start, calls[..i])
      invariant b.ledger.initial == old(b.ledger.initial)
      invariant b.ledger.appended == old(b.ledger.appended) + |Pushed(calls[..i])|
      invariant old(b.Valid()) ==>
                  b.Valid() && b.ledger.peak == Max(old(b.ledger.peak), Peak(start, calls[..i]))
    {
      RunNext(start, calls, i);
      FrontOfPrefix(calls, i);
      PushedNext(calls, i);
      var more := Apply(b, calls[i]);
      lines := lines + more;
    }
    assert calls[..|calls|] == calls;
    if b.Valid() {
      BalancedBounds(b.ledger);
    }
  }

  lemma FrontOfPrefix(calls: seq<Call>, i: nat)
    requires i < |calls|
    ensures calls[..i + 1][..i] == calls[..i]
  {}

  lemma PushedNext(calls: seq<Call>, i: nat)
    requires i < |calls|
    ensures |Pushed(calls[..i + 1])| == |Pushed(calls[..i])| + |Arriving(calls[i])|
  {
    assert calls[..i + 1] == calls[..i] + [calls[i]];
    assert [calls[i]][1..] == [];
    PushedConcat(calls[..i], [calls[i]]);
  }

  /**
   The amortised bounds over every run of a new buffer: what it returns, the longest
   content it held, and from that its size and the bytes it moved.
   */
  method Run(initialSize: nat, calls: seq<Call>) returns (b: CircularBuffer, lines: seq<string>)
    requires 1 <= initialSize <= INT_MAX && 3 * |Pushed(calls)| <= INT_MAX
    ensures fresh(b) && b.Valid()
    ensures lines == Delivered("", calls) && b.Content() == After("", calls)
    ensures b.buffer.Length <= Max(initialSize, 3 * Peak("", calls))
    ensures b.ledger.copied <= 7 * |Pushed(calls)|
  {
    b := new CircularBuffer(initialSize);
    lines := Replay(b, calls);
  }
}
