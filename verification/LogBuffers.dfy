/**
 The byte sinks of the log pipeline: `FixedBuffer`, which takes a record whole or not at
 all, the stream that builds a record in one, and `LogFile`, whose `Append` puts up with
 short writes.
 */
module LogBuffers {
  import opened Limits
  import opened Sequences

  const SMALL_BUFFER: nat := 4000
  const LARGE_BUFFER: nat := 4000 * 1000

  class FixedBuffer {
    const data: array<char>
    var cur: nat

    /** One byte always stays free, because `Append` asks for strictly more room than it uses. */
    ghost predicate Valid()
      reads this
    {
      cur < data.Length <= INT_MAX
    }

    ghost function Contents(): string
      requires Valid()
      reads this, data
    {
      data[..cur]
    }

    constructor (size: nat)
      requires 0 < size <= INT_MAX
      ensures Valid() && fresh(data)
      ensures data.Length == size && Contents() == ""
    {
      data := new char[size](_ => '\0');
      cur := 0;
    }

    function Length(): (n: nat)
      requires Valid()
      reads this, data
      ensures n == |Contents()|
    {
      cur
    }

    function Available(): (n: nat)
      requires Valid()
      reads this, data
      ensures n + |Contents()| == data.Length && n > 0
    {
      data.Length - cur
    }

    /** All of `buf` or nothing. A record that would just fill the buffer is refused. */
    method Append(buf: string)
      requires Valid() && |buf| <= INT_MAX
      modifies this`cur, data
      ensures Valid()
      ensures Contents() ==
              if |old(Contents())| + |buf| < data.Length then old(Contents()) + buf else old(Contents())
    {
      if Available() > |buf| {
        forall i | 0 <= i < |buf| {
          data[cur + i] := buf[i];
        }
        cur := cur + |buf|;
      }
    }

    method Clear()
      requires Valid()
      modifies this`cur, data
      ensures Valid() && Contents() == ""
      ensures forall i | 0 <= i < data.Length :: data[i] == '\0'
    {
      forall i | 0 <= i < data.Length {
        data[i] := '\0';
      }
      cur := 0;
    }
  }

  // ------------------------------------------------------------ LogStream

  /** A stream's text after one more insertion: kept whole or dropped whole. */
  function Inserted(record: string, text: string): string {
    if |record| + |text| < SMALL_BUFFER then record + text else record
  }

  /** The record a stream holds after inserting these texts one by one. */
  function Streamed(texts: seq<string>): (record: string)
    ensures |record| < SMALL_BUFFER
    decreases |texts|
  {
    if texts == [] then ""
    else Inserted(Streamed(texts[..|texts| - 1]), texts[|texts| - 1])
  }

  /** A line some stream can hold, whatever was inserted into it. */
  ghost predicate IsRecord(line: string) {
    exists texts :: Streamed(texts) == line
  }

  /** The records are exactly the lines that leave one byte of the small buffer free. */
  lemma RecordsAreShort(line: string)
    ensures IsRecord(line) <==> |line| <= 3999
  {
    if |line| < SMALL_BUFFER {
      assert [line][..0] == [];
      assert Streamed([line]) == Inserted("", line) == line;
    }
  }

  /** Texts that fit together are all in the record, in their order; the record never loses what it holds. */
  lemma {:induction false} StreamedIsAll(texts: seq<string>)
    ensures |Flatten(texts)| < 4000 ==> Streamed(texts) == Flatten(texts)
    ensures texts != [] ==> Streamed(texts[..|texts| - 1]) <= Streamed(texts)
    decreases |texts|
  {
    if texts != [] {
      var front, text := texts[..|texts| - 1], texts[|texts| - 1];
      StreamedIsAll(front);
      assert texts == front + [text];
      FlattenConcat(front, [text]);
      FlattenOne(text);
    }
  }

  class LogStream {
    const buffer: FixedBuffer
    ghost var texts: seq<string>

    ghost predicate Valid()
      reads this, buffer, buffer.data
    {
      && buffer.Valid() && buffer.data.Length == SMALL_BUFFER
      && buffer.Contents() == Streamed(texts)
    }

    constructor ()
      ensures Valid() && fresh(buffer) && fresh(buffer.data) && texts == []
      ensures buffer.Contents() == ""
    {
      buffer := new FixedBuffer(SMALL_BUFFER);
      texts := [];
    }

    /** Inserting a string: kept whole behind what is there while one byte stays free, or dropped whole. */
    method Put(text: string)
      requires Valid() && |text| <= INT_MAX
      modifies this`texts, buffer`cur, buffer.data
      ensures Valid() && texts == old(texts) + [text]
      ensures buffer.Contents() ==
              if |old(buffer.Contents())| + |text| < 4000 then old(buffer.Contents()) + text
              else old(buffer.Contents())
    {
      FrontOfSnoc(texts, text);
      buffer.Append(text);
      texts := texts + [text];
    }

    /** Inserting a number: a first look at the room changes nothing, since `Append` looks again. */
    method PutNumber(digits: string)
      requires Valid() && |digits| <= INT_MAX
      modifies this`texts, buffer`cur, buffer.data
      ensures Valid() && texts == old(texts) + [digits]
      ensures buffer.Contents() ==
              if |old(buffer.Contents())| + |digits| < 4000 then old(buffer.Contents()) + digits
              else old(buffer.Contents())
    {
      FrontOfSnoc(texts, digits);
      if buffer.Available() >= |digits| {
        buffer.Append(digits);
      }
      texts := texts + [digits];
    }
  }

  // -------------------------------------------------------------- LogFile

  /** What one call of fwrite does: bytes taken (at most those asked for) and the stream's error flag. */
  datatype Fwrite = Fwrite(n: nat, error: bool)

  /** Bytes taken after `k` calls that each ask for all of what is left of `len`. */
  function Taken(calls: nat -> Fwrite, len: nat, k: nat): (t: nat)
    ensures t <= len
  {
    if k == 0 then 0
    else
      var t := Taken(calls, len, k - 1) + calls(k - 1).n;
      if t < len then t else len
  }

  /** The sum of what the first `k` calls would take. */
  function Total(calls: nat -> Fwrite, k: nat): nat {
    if k == 0 then 0 else Total(calls, k - 1) + calls(k - 1).n
  }

  /** Together the calls take that many bytes, but never more than there are. */
  lemma {:induction false} TakenIsTotal(calls: nat -> Fwrite, len: nat, k: nat)
    ensures Taken(calls, len, k) == if Total(calls, k) < len then Total(calls, k) else len
  {
    if k > 0 {
      TakenIsTotal(calls, len, k - 1);
    }
  }

  /** Call `k` comes back short with the error flag set, which ends the loop. */
  predicate CutShort(calls: nat -> Fwrite, len: nat, k: nat) {
    Taken(calls, len, k + 1) < len && calls(k).error
  }

  /** The loop condition, or the break, ends the loop when it is looked at after `k` calls. */
  predicate OverAt(calls: nat -> Fwrite, len: nat, k: nat) {
    Taken(calls, len, k) == len || (k > 0 && CutShort(calls, len, k - 1))
  }

  /** The loop is over after `k` calls, and not before. */
  ghost predicate Stops(calls: nat -> Fwrite, len: nat, k: nat) {
    OverAt(calls, len, k) && forall j | 0 <= j < k :: !OverAt(calls, len, j)
  }

  lemma StopsOnce(calls: nat -> Fwrite, len: nat, k: nat, l: nat)
    requires Stops(calls, len, k) && Stops(calls, len, l)
    ensures k == l
  {}

  /**
   Short writes are invisible: whatever partial counts fwrite returns, the loop that
   stops has taken every byte exactly when no short call reported an error.
   */
  lemma ShortWritesAreInvisible(calls: nat -> Fwrite, len: nat, k: nat)
    requires Stops(calls, len, k)
    ensures Taken(calls, len, k) == len <==> forall j | 0 <= j < k :: !CutShort(calls, len, j)
  {
    forall j | 0 <= j < k && CutShort(calls, len, j)
      ensures j + 1 == k
    {
      assert OverAt(calls, len, j + 1);
    }
  }

  /** A loop whose calls make progress is over after at most one call per byte. */
  lemma AlwaysStops(calls: nat -> Fwrite, len: nat) returns (k: nat)
    requires forall j: nat :: calls(j).n > 0 || calls(j).error
    ensures k <= len && Stops(calls, len, k)
  {
    k := 0;
    while !OverAt(calls, len, k)
      invariant k <= len
      invariant OverAt(calls, len, k) || Taken(calls, len, k) >= k
      invariant forall j | 0 <= j < k :: !OverAt(calls, len, j)
      decreases len - k
    {
      assert calls(k).n > 0 || calls(k).error;
      k := k + 1;
    }
  }

  /** Without an error, or when the first call takes all there is, everything is taken. */
  lemma GoodCallsTakeAll(calls: nat -> Fwrite, len: nat, k: nat)
    requires Stops(calls, len, k)
    requires (forall j: nat :: !calls(j).error) || len <= calls(0).n
    ensures Taken(calls, len, k) == len
  {
    if len <= calls(0).n {
      assert Taken(calls, len, 1) == len;
      assert k > 1 ==> !OverAt(calls, len, 1);
    }
  }

  lemma TakenFurther(file: string, line: string, written: nat, n: nat)
    requires written + n <= |line|
    ensures file + line[..written] + line[written..written + n] == file + line[..written + n]
  {
    assert line[..written] + line[written..written + n] == line[..written + n];
    Assoc(file, line[..written], line[written..written + n]);
  }

  class LogFile {
    ghost var file: string      // every byte fwrite has taken, in order
    ghost var flushed: nat      // how much of it fflush has pushed out
    var count: int
    const flushEveryN: int

    ghost predicate Valid()
      reads this
    {
      && flushed <= |file|
      && 0 <= count
      && (flushEveryN >= 1 ==> count < flushEveryN)
      && (flushEveryN < 1 ==> count == 0)
    }

    constructor (flushEveryN: int := 1024)
      ensures Valid() && file == "" && flushed == 0 && count == 0
      ensures this.flushEveryN == flushEveryN
    {
      file, flushed, count := "", 0, 0;
      this.flushEveryN := flushEveryN;
    }

    /** Emits the line once and in order, up to the call that fails, and flushes on every N-th line. */
    method Append(line: string, calls: nat -> Fwrite, ghost last: nat) returns (ok: bool)
      requires Valid() && Stops(calls, |line|, last)
      modifies this
      ensures Valid()
      ensures file == old(file) + line[..Taken(calls, |line|, last)]
      ensures ok <==> Taken(calls, |line|, last) == |line|
      ensures ok ==> file == old(file) + line
      ensures (forall j: nat :: !calls(j).error) || |line| <= calls(0).n ==> ok
      ensures count == if old(count) + 1 >= flushEveryN then 0 else old(count) + 1
      ensures flushed == if old(count) + 1 >= flushEveryN then |file| else old(flushed)
    {
      ok := WriteLoop(line, calls, last);
      if (forall j: nat :: !calls(j).error) || |line| <= calls(0).n {
        GoodCallsTakeAll(calls, |line|, last);
      }
      assert line[..|line|] == line;
      count := count + 1;
      if count >= flushEveryN {
        count := 0;
        Fflush();
      }
    }

    /** The loop over short writes. */
    method WriteLoop(line: string, calls: nat -> Fwrite, ghost last: nat) returns (ok: bool)
      requires Stops(calls, |line|, last)
      modifies this`file
      ensures file == old(file) + line[..Taken(calls, |line|, last)]
      ensures ok <==> Taken(calls, |line|, last) == |line|
    {
      var written, k := 0, 0;
      ok := true;
      assert line[..0] == "";
      while written != |line|
        invariant k <= last && written <= |line| && ok
        invariant written == Taken(calls, |line|, k)
        invariant k == last ==> written == |line|
        invariant file == old(file) + line[..written]
        decreases last - k
      {
        var remain := |line| - written;
        var n := if calls(k).n < remain then calls(k).n else remain;
        TakenFurther(old(file), line, written, n);
        file := file + line[written..written + n];
        k := k + 1;
        if n != remain {
          if calls(k - 1).error {
            assert CutShort(calls, |line|, k - 1);
            ok := false;
            break;
          }
        }
        written := written + n;
      }
      assert Stops(calls, |line|, k);
      StopsOnce(calls, |line|, k, last);
    }

    ghost method Fflush()
      modifies this`flushed
      ensures flushed == |file|
    {
      flushed := |file|;
    }

    method Flush()
      requires Valid()
      modifies this`flushed
      ensures Valid() && flushed == |file|
    {
      Fflush();
    }
  }
}
