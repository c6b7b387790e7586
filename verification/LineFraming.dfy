/**
 The line discipline of `CircularBuffer::ParseLine`, stated on the plain byte
 stream a buffer stands for, and what it delivers over whole runs of appends
 and reads.
 */
module LineFraming {
  import opened Sequences

  /** Position of the first '\n', or the length when there is none. */
  function NewlineAt(s: string): (k: nat)
    ensures k <= |s|
    ensures forall i | 0 <= i < k :: s[i] != '\n'
    ensures k < |s| ==> s[k] == '\n'
  {
    if s == [] || s[0] == '\n' then 0 else 1 + NewlineAt(s[1..])
  }

  /** The bytes up to the first '\n' form a line that `ParseLine` hands out. */
  predicate Framed(s: string) {
    var k := NewlineAt(s);
    2 <= k < |s| && s[k - 1] == '\r'
  }

  /** There is a '\n', but the line in front of it will never be handed out. */
  predicate Stuck(s: string) {
    NewlineAt(s) < |s| && !Framed(s)
  }

  /** What one call of `ParseLine` returns on the content `s`. */
  function ParsedLine(s: string): string {
    if Framed(s) then s[..NewlineAt(s) - 1] else ""
  }

  /** The content one call of `ParseLine` leaves behind. */
  function AfterParse(s: string): (rest: string)
    ensures Framed(s) ==> |rest| < |s|
  {
    if Framed(s) then s[NewlineAt(s) + 1..] else s
  }

  /** The content a call consumes: the line and its CRLF. */
  function Terminated(line: string): string { line + "\r\n" }

  function Encode(lines: seq<string>): string {
    if lines == [] then "" else Terminated(lines[0]) + Encode(lines[1..])
  }

  /** Every line that repeated calls would hand out if the whole of `s` were there. */
  function Frames(s: string): seq<string>
    decreases |s|
  {
    if Framed(s) then [ParsedLine(s)] + Frames(AfterParse(s)) else []
  }

  /** What is left once `Frames(s)` are handed out. */
  function Residue(s: string): string
    decreases |s|
  {
    if Framed(s) then Residue(AfterParse(s)) else s
  }

  lemma NewlineUnique(s: string, k: nat)
    requires k <= |s| && forall i | 0 <= i < k :: s[i] != '\n'
    requires k < |s| ==> s[k] == '\n'
    ensures NewlineAt(s) == k
  {}

  /** A call that consumes removes exactly its non-empty line and CRLF; any other call returns the empty line. */
  lemma ParseConsumesOneLine(s: string)
    ensures Framed(s) ==> ParsedLine(s) != "" && s == Terminated(ParsedLine(s)) + AfterParse(s)
    ensures '\n' !in ParsedLine(s)
    ensures ParsedLine(s) == "" <==> AfterParse(s) == s
  {}

  /** Bytes arriving later never change what the first line is, nor unblock a stuck stream. */
  lemma LaterBytesDoNotMatter(s: string, more: string)
    requires NewlineAt(s) < |s|
    ensures NewlineAt(s + more) == NewlineAt(s)
    ensures Framed(s + more) <==> Framed(s)
    ensures ParsedLine(s + more) == ParsedLine(s)
    ensures Framed(s) ==> AfterParse(s + more) == AfterParse(s) + more
    ensures Stuck(s + more) <==> Stuck(s)
  {
    var k := NewlineAt(s);
    assert (s + more)[..k] == s[..k];
    NewlineUnique(s + more, k);
    if Framed(s) {
      assert (s + more)[..k - 1] == s[..k - 1];
      assert (s + more)[k + 1..] == s[k + 1..] + more;
    }
  }

  /** Frames found early are frames of the longer stream. */
  lemma {:induction false} FramesOfPrefix(s: string, more: string)
    ensures Frames(s + more) == Frames(s) + Frames(Residue(s) + more)
    ensures Residue(s + more) == Residue(Residue(s) + more)
    decreases |s|
  {
    if Framed(s) {
      LaterBytesDoNotMatter(s, more);
      FramesOfPrefix(AfterParse(s), more);
    }
  }

  // ----------------------------------------------------------------- runs

  /** The two calls a user of the buffer interleaves. */
  datatype Call = Push(chunk: string) | Pull

  /** The bytes a call appends, the content it leaves, and the line it returns when that is not empty. */
  function Arriving(call: Call): string {
    if call.Push? then call.chunk else ""
  }

  function Step(content: string, call: Call): string {
    if call.Push? then content + call.chunk else AfterParse(content)
  }

  function Yield(content: string, call: Call): seq<string> {
    if call.Pull? && ParsedLine(content) != "" then [ParsedLine(content)] else []
  }

  /** The same three for a sequence of calls. */
  function Pushed(calls: seq<Call>): string {
    if calls == [] then "" else Arriving(calls[0]) + Pushed(calls[1..])
  }

  function After(content: string, calls: seq<Call>): string
    decreases |calls|
  {
    if calls == [] then content else After(Step(content, calls[0]), calls[1..])
  }

  function Delivered(content: string, calls: seq<Call>): seq<string>
    decreases |calls|
  {
    if calls == [] then [] else Yield(content, calls[0]) + Delivered(Step(content, calls[0]), calls[1..])
  }

  /** One call moves at most one line from the stream to the results and changes nothing else. */
  lemma StepKeepsStream(content: string, call: Call, unread: string)
    ensures Frames(content + (Arriving(call) + unread)) == Yield(content, call) + Frames(Step(content, call) + unread)
    ensures Residue(content + (Arriving(call) + unread)) == Residue(Step(content, call) + unread)
    ensures content + (Arriving(call) + unread) == Encode(Yield(content, call)) + (Step(content, call) + unread)
  {
    if call.Push? {
      Assoc(content, call.chunk, unread);
    } else {
      assert "" + unread == unread;
      ParseConsumesOneLine(content);
      if Framed(content) {
        LaterBytesDoNotMatter(content, unread);
        EncodeOne(ParsedLine(content));
        Assoc(Terminated(ParsedLine(content)), AfterParse(content), unread);
      }
    }
  }

  lemma EncodeOne(line: string)
    ensures Encode([line]) == Terminated(line)
  {}

  lemma {:induction false} EncodeConcat(xs: seq<string>, ys: seq<string>)
    ensures Encode(xs + ys) == Encode(xs) + Encode(ys)
  {
    if xs == [] {
      assert xs + ys == ys;
    } else {
      assert (xs + ys)[1..] == xs[1..] + ys;
      EncodeConcat(xs[1..], ys);
      Assoc(Terminated(xs[0]), Encode(xs[1..]), Encode(ys));
    }
  }

  /**
   Chunking and interleaving do not matter, for any byte stream at all: the lines
   delivered so far, followed by the lines still to be found in the content, are
   the lines of the whole stream.
   */
  lemma {:induction false} ChunkingIndependence(content: string, calls: seq<Call>)
    ensures Delivered(content, calls) + Frames(After(content, calls)) == Frames(content + Pushed(calls))
    ensures Residue(After(content, calls)) == Residue(content + Pushed(calls))
    decreases |calls|
  {
    if calls == [] {
      assert content + "" == content;
      assert Delivered(content, calls) == [];
    } else {
      var call, next, rest := calls[0], Step(content, calls[0]), calls[1..];
      ChunkingIndependence(next, rest);
      StepKeepsStream(content, call, Pushed(rest));
      Assoc(Yield(content, call), Delivered(next, rest), Frames(After(next, rest)));
    }
  }

  /** No byte is lost, invented or reordered by any interleaving of appends and reads. */
  lemma {:induction false} StreamConserved(content: string, calls: seq<Call>)
    ensures Encode(Delivered(content, calls)) + After(content, calls) == content + Pushed(calls)
    decreases |calls|
  {
    if calls == [] {
      assert content + "" == content;
    } else {
      var next, rest := Step(content, calls[0]), calls[1..];
      StreamConserved(next, rest);
      StepKeepsStream(content, calls[0], Pushed(rest));
      EncodeConcat(Yield(content, calls[0]), Delivered(next, rest));
      Assoc(Encode(Yield(content, calls[0])), Encode(Delivered(next, rest)), After(next, rest));
    }
  }

  /** `n` calls of `ParseLine` with nothing appended in between. */
  function PullTimes(n: nat): (calls: seq<Call>)
    ensures |calls| == n
  {
    seq(n, _ => Pull)
  }

  /** Once everything has arrived, one call per remaining line drains the buffer. */
  lemma {:induction false} DrainDeliversEverything(content: string, n: nat)
    requires n >= |Frames(content)|
    ensures Delivered(content, PullTimes(n)) == Frames(content)
    ensures After(content, PullTimes(n)) == Residue(content)
    decreases n
  {
    if n > 0 {
      assert PullTimes(n)[1..] == PullTimes(n - 1);
      ParseConsumesOneLine(content);
      DrainDeliversEverything(AfterParse(content), n - 1);
    }
  }

  /** Once stuck, a buffer never delivers another line, whatever is appended. */
  lemma StuckForever(content: string, calls: seq<Call>)
    requires Stuck(content)
    ensures Delivered(content, calls) == []
    ensures After(content, calls) == content + Pushed(calls)
  {
    LaterBytesDoNotMatter(content, Pushed(calls));
    ChunkingIndependence(content, calls);
    StreamConserved(content, calls);
  }

  // ----------------------------------------------- the CRLF line protocol

  /** The lines in front of the first empty one. */
  function UpToEmpty(lines: seq<string>): (front: seq<string>)
    ensures front <= lines
  {
    if lines == [] || lines[0] == "" then [] else [lines[0]] + UpToEmpty(lines[1..])
  }

  /** What `ParseLine` makes of a CRLF-encoded list of lines: all of it up to the first empty line. */
  lemma {:induction false} FramesOfEncoding(lines: seq<string>)
    requires forall line | line in lines :: '\n' !in line
    ensures Frames(Encode(lines)) == UpToEmpty(lines)
    ensures Residue(Encode(lines)) == Encode(lines[|UpToEmpty(lines)|..])
    ensures Stuck(Residue(Encode(lines))) <==> "" in lines
    ensures "" in lines <==> UpToEmpty(lines) != lines
    decreases |lines|
  {
    if lines == [] {
    } else {
      EncodedLineIsFramed(lines[0], Encode(lines[1..]));
      if lines[0] == "" {
        assert lines[0..] == lines;
      } else {
        FramesOfEncoding(lines[1..]);
        assert lines[|UpToEmpty(lines)|..] == lines[1..][|UpToEmpty(lines[1..])|..];
      }
    }
  }

  /** A terminated line in front of any bytes is found by `ParseLine`, unless it is empty. */
  lemma EncodedLineIsFramed(line: string, more: string)
    requires '\n' !in line
    ensures var s := Terminated(line) + more;
            if line == "" then Stuck(s) else Framed(s) && ParsedLine(s) == line && AfterParse(s) == more
  {
    var s := Terminated(line) + more;
    assert forall i | 0 <= i < |line| :: line[i] in line;
    NewlineUnique(s, |line| + 1);
  }

  /**
   The line protocol while it runs. Encode '\n'-free lines, cut the stream into
   chunks anywhere, interleave reads anywhere: what has been delivered is a prefix of
   the lines, stopping at the first empty one, and delivered and buffered bytes make
   up the bytes appended.
   */
  lemma LinesInOrder(lines: seq<string>, calls: seq<Call>, unsent: string)
    requires forall line | line in lines :: '\n' !in line
    requires Pushed(calls) + unsent == Encode(lines)
    ensures Delivered("", calls) <= UpToEmpty(lines) <= lines
    ensures Encode(Delivered("", calls)) + After("", calls) == Pushed(calls)
  {
    assert "" + Pushed(calls) == Pushed(calls);
    ChunkingIndependence("", calls);
    StreamConserved("", calls);
    FramesOfPrefix(Pushed(calls), unsent);
    FramesOfEncoding(lines);
  }

  /**
   The line protocol once everything has arrived: one further read per line delivers
   all the lines and empties the buffer exactly when no line is empty. With an empty
   line everything in front of it comes out, and the rest never does.
   */
  lemma LinesDelivered(lines: seq<string>, calls: seq<Call>)
    requires forall line | line in lines :: '\n' !in line
    requires Pushed(calls) == Encode(lines)
    ensures var drained := calls + PullTimes(|lines|);
            && Delivered("", drained) == UpToEmpty(lines)
            && (Delivered("", drained) == lines <==> "" !in lines)
            && (After("", drained) == "" <==> "" !in lines)
  {
    FramesOfEncoding(lines);
    DrainAnyStream(calls, |lines|);
    NothingLeft(lines);
  }

  /** The same for any byte stream: enough reads at the end deliver every line found in the whole of it. */
  lemma DrainAnyStream(calls: seq<Call>, n: nat)
    requires n >= |Frames(Pushed(calls))|
    ensures Delivered("", calls + PullTimes(n)) == Frames(Pushed(calls))
    ensures After("", calls + PullTimes(n)) == Residue(Pushed(calls))
  {
    assert "" + Pushed(calls) == Pushed(calls);
    ChunkingIndependence("", calls);
    RunsCompose("", calls, PullTimes(n));
    DrainDeliversEverything(After("", calls), n);
  }

  lemma NothingLeft(lines: seq<string>)
    requires forall line | line in lines :: '\n' !in line
    ensures Residue(Encode(lines)) == "" <==> "" !in lines
  {
    FramesOfEncoding(lines);
    if "" !in lines {
      assert lines[|lines|..] == [];
    }
  }

  lemma {:induction false} RunsCompose(content: string, first: seq<Call>, second: seq<Call>)
    ensures Delivered(content, first + second) == Delivered(content, first) + Delivered(After(content, first), second)
    ensures After(content, first + second) == After(After(content, first), second)
    decreases |first|
  {
    if first == [] {
      assert first + second == second;
      assert Delivered(content, first) == [];
    } else {
      assert (first + second)[1..] == first[1..] + second;
      var next := Step(content, first[0]);
      RunsCompose(next, first[1..], second);
      Assoc(Yield(content, first[0]), Delivered(next, first[1..]), Delivered(After(next, first[1..]), second));
    }
  }

  lemma {:induction false} PushedConcat(first: seq<Call>, second: seq<Call>)
    ensures Pushed(first + second) == Pushed(first) + Pushed(second)
  {
    if first == [] {
      assert first + second == second;
    } else {
      assert (first + second)[1..] == first[1..] + second;
      PushedConcat(first[1..], second);
      Assoc(Arriving(first[0]), Pushed(first[1..]), Pushed(second));
    }
  }

  /** A run extended by its next call. */
  lemma RunNext(start: string, calls: seq<Call>, i: nat)
    requires i < |calls|
    ensures Delivered(start, calls[..i + 1]) == Delivered(start, calls[..i]) + Yield(After(start, calls[..i]), calls[i])
    ensures After(start, calls[..i + 1]) == Step(After(start, calls[..i]), calls[i])
    ensures |After(start, calls[..i])| + |Arriving(calls[i])| <= |start| + |Pushed(calls)|
  {
    var done, next := calls[..i], [calls[i]];
    assert calls[..i + 1] == done + next;
    assert next[1..] == [];
    RunsCompose(start, done, next);
    PushedSoFar(start, calls, i);
  }

  /** There is never more in the buffer than has been appended, and the next append comes on top. */
  lemma PushedSoFar(start: string, calls: seq<Call>, i: nat)
    requires i < |calls|
    ensures |After(start, calls[..i])| + |Arriving(calls[i])| <= |start| + |Pushed(calls)|
  {
    var done, next, rest := calls[..i], [calls[i]], calls[i + 1..];
    assert calls == done + next + rest;
    assert next[1..] == [];
    PushedConcat(done + next, rest);
    PushedConcat(done, next);
    StreamConserved(start, done);
  }
}
