/**
 `HttpRequest::ParseRequest` over `Buffer::ReadByLine`: the line-by-line request parser,
 as functions on the unread bytes and as the classes whose fields it updates.
 */
module HttpParsing {
  import opened Sequences
  import opened LineFraming

  // ------------------------------------------------------ CRLF-ended lines

  predicate CrlfHere(s: string, i: nat) {
    i + 1 < |s| && s[i] == '\r' && s[i + 1] == '\n'
  }

  /** Where the first CRLF starts, or the length when there is none. */
  function CrlfAt(s: string): (k: nat)
    ensures k <= |s|
    ensures k < |s| ==> CrlfHere(s, k)
    ensures forall i: nat | i < k :: !CrlfHere(s, i)
  {
    if s == [] || CrlfHere(s, 0) then 0
    else
      var k := 1 + CrlfAt(s[1..]);
      assert forall i: nat | 0 < i < k :: CrlfHere(s, i) ==> CrlfHere(s[1..], i - 1);
      k
  }

  predicate HasCrlf(s: string) {
    CrlfAt(s) < |s|
  }

  lemma CrlfUnique(s: string, k: nat)
    requires CrlfHere(s, k) && forall i: nat | i < k :: !CrlfHere(s, i)
    ensures CrlfAt(s) == k
  {}

  /** A CRLF-free line in front of its own CRLF is cut off right there, even when it ends in '\r'. */
  lemma CutsTerminated(line: string, more: string)
    requires !HasCrlf(line)
    ensures var s := Terminated(line) + more;
            CrlfAt(s) == |line| && s[..|line|] == line && s[|line| + 2..] == more
  {
    var s := Terminated(line) + more;
    forall i: nat | i < |line|
      ensures !CrlfHere(s, i)
    {
      assert !CrlfHere(line, i);
      assert s[i] == line[i] && (i + 1 < |line| ==> s[i + 1] == line[i + 1]);
    }
    CrlfUnique(s, |line|);
  }

  /** The lines in front of every CRLF, in order, and what follows the last one. */
  function Split(s: string): seq<string>
    decreases |s|
  {
    if HasCrlf(s) then [s[..CrlfAt(s)]] + Split(s[CrlfAt(s) + 2..]) else []
  }

  lemma {:induction false} SplitEncode(lines: seq<string>)
    requires forall i | 0 <= i < |lines| :: !HasCrlf(lines[i])
    ensures Split(Encode(lines)) == lines
  {
    if lines != [] {
      SplitEncode(lines[1..]);
      assert Split(Encode(lines)) == [lines[0]] + Split(Encode(lines[1..])) by {
        CutsTerminated(lines[0], Encode(lines[1..]));
      }
    }
  }

  // ------------------------------------------------------------ the request

  datatype ParseState = RequestLine | Header | Body | Complete

  datatype Request = Request(
    state: ParseState, method_: string, path: string, version: string, headers: map<string, string>)

  /**
   What `ParseRequest` comes back with. `OutOfRange` is the exception `substr` throws; after
   `BadRange` the read index is past the write index, and the next search has no range.
   */
  datatype Outcome = NoRequest | GoodRequest | OutOfRange | BadRange

  predicate IsSpace(c: char) {
    c == ' ' || '\t' <= c <= '\r'
  }

  predicate Spaceless(s: string) {
    forall i | 0 <= i < |s| :: !IsSpace(s[i])
  }

  function SkipSpaces(s: string): (t: string)
    ensures |t| <= |s| && (t != "" ==> !IsSpace(t[0]))
  {
    if s != "" && IsSpace(s[0]) then SkipSpaces(s[1..]) else s
  }

  /** The white space of the "C" locale. */
  lemma SixSpaces(c: char)
    ensures IsSpace(c) <==> c in [' ', '\t', '\n', '\U{0B}', '\U{0C}', '\r']
    ensures '!' <= c <= '~' ==> !IsSpace(c)
  {}

  /** Length of the leading run of non-space characters. */
  function WordEnd(s: string): (n: nat)
    ensures n <= |s| && Spaceless(s[..n])
    ensures n < |s| ==> IsSpace(s[n])
    ensures s != "" && !IsSpace(s[0]) ==> n > 0
  {
    if s == "" || IsSpace(s[0]) then 0 else 1 + WordEnd(s[1..])
  }

  /**
   `stream >> target`: skips white space and takes a word. At the end of the stream
   nothing is extracted and the target keeps its value.
   */
  function Extract(stream: string, target: string): (r: (string, string))
    ensures Spaceless(target) ==> Spaceless(r.0)
  {
    var s := SkipSpaces(stream);
    if s == "" then (target, "") else (s[..WordEnd(s)], s[WordEnd(s)..])
  }

  lemma {:induction false} SkipsOnlySpaces(s: string)
    ensures var n := |s| - |SkipSpaces(s)|;
            s[n..] == SkipSpaces(s) && forall i | 0 <= i < n :: IsSpace(s[i])
  {
    if s != "" && IsSpace(s[0]) {
      SkipsOnlySpaces(s[1..]);
    }
  }

  predicate AllSpaces(s: string) {
    forall i | 0 <= i < |s| :: IsSpace(s[i])
  }

  /** `word` is the first of `stream`: white space, the whole word, and then white space or nothing. */
  predicate FirstWord(stream: string, n: nat, word: string, rest: string) {
    && n <= |stream| && AllSpaces(stream[..n]) && stream[n..] == word + rest
    && word != "" && Spaceless(word) && (rest != "" ==> IsSpace(rest[0]))
  }

  /** A stream without a word leaves the target alone. */
  lemma NothingToExtract(stream: string, target: string)
    requires AllSpaces(stream)
    ensures Extract(stream, target) == (target, "")
  {
    SkipsOnlySpaces(stream);
  }

  /** An extraction takes the first word off the stream, from behind the white space in front of it. */
  lemma ExtractsFirstWord(stream: string, target: string) returns (n: nat)
    requires !AllSpaces(stream)
    ensures FirstWord(stream, n, Extract(stream, target).0, Extract(stream, target).1)
  {
    var s := SkipSpaces(stream);
    n := |stream| - |s|;
    SkipsOnlySpaces(stream);
    var i :| 0 <= i < |stream| && !IsSpace(stream[i]);
    assert i >= n;
    SplitOnce(s, WordEnd(s));
  }

  function ParseRequestLine(req: Request, line: string): Request {
    var (method_, s1) := Extract(line, req.method_);
    var (path, s2) := Extract(s1, req.path);
    var (version, _) := Extract(s2, req.version);
    req.(state := Header, method_ := method_, path := path, version := version)
  }

  function IndexOf(s: string, c: char): (k: nat)
    ensures k <= |s| && (k < |s| ==> s[k] == c)
    ensures forall i | 0 <= i < k :: s[i] != c
  {
    if s == "" || s[0] == c then 0 else 1 + IndexOf(s[1..], c)
  }

  /** `substr(pos + 2)` throws exactly when the first ':' ends the line. */
  predicate SubstrThrows(line: string) {
    line != "" && IndexOf(line, ':') == |line| - 1
  }

  /** Key and value of a header line. Without a ':' the position is -1: the whole line, and the line from its second character. */
  function Field(line: string): (string, string)
    requires line != "" && !SubstrThrows(line)
  {
    var pos := IndexOf(line, ':');
    if pos == |line| then (line, line[1..]) else (line[..pos], line[pos + 2..])
  }

  /** The line's first ':' is followed by a blank. */
  predicate ColonBlank(line: string) {
    var pos := IndexOf(line, ':');
    pos + 1 < |line| && line[pos + 1] == ' '
  }

  /** Key and value account for every byte of the line. */
  predicate FieldLossless(line: string)
    requires line != "" && !SubstrThrows(line)
  {
    Field(line).0 + ": " + Field(line).1 == line
  }

  /** The key ends in front of the first ':', and the value starts two behind it, whatever is in between. */
  lemma FieldOf(key: string, c: char, value: string)
    requires ':' !in key
    ensures var line := key + [':', c] + value;
            !SubstrThrows(line) && Field(line) == (key, value)
  {
    var line := key + [':', c] + value;
    FirstColon(line, key);
    assert line[..|key|] == key && line[|key| + 2..] == value;
  }

  /** Without a ':', the key is the line and the value all of it but its first character. */
  lemma FieldWithoutColon(line: string)
    requires line != "" && ':' !in line
    ensures !SubstrThrows(line) && Field(line) == (line, line[1..])
  {}

  lemma FirstColon(line: string, key: string)
    requires ':' !in key && |key| < |line| && line[..|key|] == key && line[|key|] == ':'
    ensures IndexOf(line, ':') == |key|
  {
    assert forall i | 0 <= i < |key| :: line[i] == key[i];
  }

  /** `substr` throws exactly for a key and a ':' with nothing behind it. */
  lemma ThrowsAtColonEnd(line: string)
    ensures SubstrThrows(line) <==> exists key :: ':' !in key && line == key + ":"
  {
    if SubstrThrows(line) {
      assert line == line[..|line| - 1] + ":";
    }
    forall key | ':' !in key && line == key + ":"
      ensures SubstrThrows(line)
    {
      FirstColon(line, key);
    }
  }

  lemma ColonSplits(line: string, pos: nat)
    requires pos + 1 < |line| && line[pos] == ':'
    ensures line[..pos] + ": " + line[pos + 2..] == line <==> line[pos + 1] == ' '
  {
    var joined := line[..pos] + ": " + line[pos + 2..];
    assert joined[pos + 1] == ' ';
    if line[pos + 1] == ' ' {
      assert line[pos..pos + 2] == ": ";
      assert line == line[..pos] + line[pos..pos + 2] + line[pos + 2..];
    }
  }

  /**
   When a header line is taken in whole: exactly when a blank follows its first ':'. The
   blank is optional in section 3.2 of RFC 7230; without it the first byte of the value is
   dropped, and without a ':' the line is stored under itself.
   */
  lemma FieldLosslessIff(line: string)
    requires line != "" && !SubstrThrows(line)
    ensures FieldLossless(line) <==> ColonBlank(line)
  {
    var pos := IndexOf(line, ':');
    if pos == |line| {
      assert |Field(line).0 + ": " + Field(line).1| > |line|;
    } else {
      ColonSplits(line, pos);
    }
  }

  lemma ValueLosesByte()
    ensures !SubstrThrows("Host:ab") && Field("Host:ab") == ("Host", "b")
  {
    var line := "Host:ab";
    assert line[..4] == "Host" && line[6..] == "b";
    assert IndexOf(line, ':') == 4 by {
      assert ':' !in line[..4];
      assert forall i | 0 <= i < 4 :: line[i] in line[..4];
    }
  }

  lemma LineWithoutColon()
    ensures !SubstrThrows("abc") && Field("abc") == ("abc", "bc")
  {
    var line := "abc";
    assert line[1..] == "bc";
  }

  function ParseHeaders(req: Request, line: string): Request
    requires !SubstrThrows(line)
  {
    if line == "" then
      if req.method_ == "GET" then req.(state := Complete)
      else if req.method_ == "POST" then req.(state := Body)
      else req
    else
      var (key, value) := Field(line);
      req.(headers := req.headers[key := value])
  }

  /** One line handed to the state machine, unless it ends the run. */
  predicate Stops(req: Request, line: string) {
    req.state.Complete? || (req.state.Header? && SubstrThrows(line))
  }

  function Feed(req: Request, line: string): Request
    requires !Stops(req, line)
  {
    match req.state
    case RequestLine => ParseRequestLine(req, line)
    case Header => ParseHeaders(req, line)
    case _ => req
  }

  datatype Parsed = Parsed(outcome: Outcome, req: Request, unread: string)

  function Verdict(req: Request): Outcome {
    if req.state.Complete? then GoodRequest else OutOfRange
  }

  /** The loop of `ParseRequest` on the unread bytes of a buffer without free space. */
  function ParseRequest(req: Request, s: string): Parsed
    decreases |s|
  {
    if !HasCrlf(s) then Parsed(NoRequest, req, s)
    else
      var line, rest := s[..CrlfAt(s)], s[CrlfAt(s) + 2..];
      if Stops(req, line) then Parsed(Verdict(req), req, rest)
      else ParseRequest(Feed(req, line), rest)
  }

  /**
   The same for any buffer: with free space, what is left behind the last CRLF is taken for
   one more line, even when it is empty.
   */
  function ParseBuffer(req: Request, s: string, full: bool): Parsed {
    var p := ParseRequest(req, s);
    if full || p.outcome != NoRequest then p
    else if Stops(p.req, p.unread) then Parsed(Verdict(p.req), p.req, "")
    else Parsed(BadRange, Feed(p.req, p.unread), "")
  }

  /** The loop ends for want of a line that is ended, on a buffer with free space. */
  predicate RunsOut(req: Request, s: string, full: bool) {
    !full && ParseRequest(req, s).outcome == NoRequest
  }

  lemma ParseOne(req: Request, s: string)
    requires HasCrlf(s)
    ensures var line, rest := s[..CrlfAt(s)], s[CrlfAt(s) + 2..];
            ParseRequest(req, s) ==
            if Stops(req, line) then Parsed(Verdict(req), req, rest) else ParseRequest(Feed(req, line), rest)
  {}

  /** One line that is ended. */
  lemma BufferStep(req: Request, s: string, full: bool)
    requires HasCrlf(s)
    ensures var line, rest := s[..CrlfAt(s)], s[CrlfAt(s) + 2..];
            if Stops(req, line) then
              ParseBuffer(req, s, full) == Parsed(Verdict(req), req, rest) && !RunsOut(req, s, full)
            else
              && ParseBuffer(req, s, full) == ParseBuffer(Feed(req, line), rest, full)
              && RunsOut(req, s, full) == RunsOut(Feed(req, line), rest, full)
  {
    ParseOne(req, s);
  }

  /** No line that is ended. */
  lemma LastStep(req: Request, s: string)
    requires !HasCrlf(s)
    ensures ParseBuffer(req, s, true) == Parsed(NoRequest, req, s) && RunsOut(req, s, false)
    ensures ParseBuffer(req, s, false) ==
            if Stops(req, s) then Parsed(Verdict(req), req, "") else Parsed(BadRange, Feed(req, s), "")
  {}

  // --------------------------------------------- what each kind of line does

  /** A line in front of more: a verdict in the complete state, and otherwise what the line does. */
  lemma OneLine(req: Request, line: string, more: string)
    requires !HasCrlf(line)
    ensures ParseRequest(req, line + "\r\n" + more) ==
            if Stops(req, line) then Parsed(Verdict(req), req, more) else ParseRequest(Feed(req, line), more)
  {
    CutsTerminated(line, more);
  }

  /** An empty line ends the headers of a GET, opens the body of a POST, and means nothing to other methods. */
  lemma EmptyLine(req: Request, more: string)
    requires req.state.Header?
    ensures ParseRequest(req, "\r\n" + more) ==
            if req.method_ == "GET" then ParseRequest(req.(state := Complete), more)
            else if req.method_ == "POST" then ParseRequest(req.(state := Body), more)
            else ParseRequest(req, more)
  {
    OneLine(req, "", more);
    EmptyConcat("", "\r\n");
  }

  /** A body takes in every line there is, and never comes to an end. */
  lemma {:induction false} BodyNeverEnds(req: Request, s: string)
    requires req.state.Body?
    ensures ParseRequest(req, s).outcome == NoRequest && ParseRequest(req, s).req == req
    ensures !HasCrlf(ParseRequest(req, s).unread)
    decreases |s|
  {
    if HasCrlf(s) {
      BodyNeverEnds(req, s[CrlfAt(s) + 2..]);
    }
  }

  /** A header line sets its key, over what it was set to before, and nothing else. */
  lemma HeaderLine(req: Request, key: string, c: char, value: string, more: string)
    requires req.state.Header? && ':' !in key && !HasCrlf(key + [':', c] + value)
    ensures ParseRequest(req, key + [':', c] + value + "\r\n" + more) ==
            ParseRequest(req.(headers := req.headers[key := value]), more)
  {
    FieldOf(key, c, value);
    OneLine(req, key + [':', c] + value, more);
  }

  lemma HeaderLineWithoutColon(req: Request, line: string, more: string)
    requires req.state.Header? && line != "" && ':' !in line && !HasCrlf(line)
    ensures ParseRequest(req, line + "\r\n" + more) ==
            ParseRequest(req.(headers := req.headers[line := line[1..]]), more)
  {
    FieldWithoutColon(line);
    OneLine(req, line, more);
  }

  /** A header line that ends in its first ':' ends the call with an exception and leaves the fields. */
  lemma ColonEndThrows(req: Request, key: string, more: string)
    requires req.state.Header? && ':' !in key && !HasCrlf(key + ":")
    ensures ParseRequest(req, key + ":" + "\r\n" + more) == Parsed(OutOfRange, req, more)
  {
    ThrowsAtColonEnd(key + ":");
    OneLine(req, key + ":", more);
  }

  /** The lines the loop takes from the buffer, the one that stops it included. */
  function LinesTaken(req: Request, s: string): seq<string>
    decreases |s|
  {
    if !HasCrlf(s) then []
    else
      var line, rest := s[..CrlfAt(s)], s[CrlfAt(s) + 2..];
      [line] + if Stops(req, line) then [] else LinesTaken(Feed(req, line), rest)
  }

  /**
   Lossless line consumption, for every request state and every input: the lines taken are
   the first CRLF-ended lines of the input, re-encoding them and appending the unread rest
   gives the input back, none of them can be mistaken for the sentinel, and the call
   without a verdict is the one that leaves no complete line unread.
   */
  lemma {:induction false} LosslessLines(req: Request, s: string)
    ensures LinesTaken(req, s) <= Split(s)
    ensures s == Encode(LinesTaken(req, s)) + ParseRequest(req, s).unread
    ensures forall l | l in LinesTaken(req, s) :: !HasCrlf(l) && l != "\r\n"
    ensures ParseRequest(req, s).outcome == NoRequest ==>
              LinesTaken(req, s) == Split(s) && !HasCrlf(ParseRequest(req, s).unread)
    decreases |s|
  {
    if HasCrlf(s) {
      var k := CrlfAt(s);
      var line, rest := s[..k], s[k + 2..];
      CutLineIsClean(s);
      assert s == Terminated(line) + rest;
      if Stops(req, line) {
        EncodeOne(line);
      } else {
        var next := Feed(req, line);
        LosslessLines(next, rest);
        EncodeConcat([line], LinesTaken(next, rest));
        EncodeOne(line);
        Assoc(Terminated(line), Encode(LinesTaken(next, rest)), ParseRequest(next, rest).unread);
      }
    }
  }

  /** Bytes arriving later do not move the first CRLF. */
  lemma LaterBytesKeepCut(s: string, more: string)
    requires HasCrlf(s)
    ensures CrlfAt(s + more) == CrlfAt(s) && (s + more)[..CrlfAt(s)] == s[..CrlfAt(s)]
    ensures (s + more)[CrlfAt(s) + 2..] == s[CrlfAt(s) + 2..] + more
  {
    var k := CrlfAt(s);
    forall i: nat | i < k
      ensures !CrlfHere(s + more, i)
    {
      assert !CrlfHere(s, i);
    }
    CrlfUnique(s + more, k);
  }

  /**
   Parsing is incremental: cut the input anywhere, parse the first part, put the rest behind
   what is left unread and parse again. The fields, the outcome and the unread bytes are
   those of parsing it in one go, and a verdict once given stands.
   */
  lemma {:induction false} ParseResumes(req: Request, s: string, more: string)
    ensures var p := ParseRequest(req, s);
            ParseRequest(req, s + more) ==
            if p.outcome == NoRequest then ParseRequest(p.req, p.unread + more)
            else Parsed(p.outcome, p.req, p.unread + more)
    decreases |s|
  {
    if HasCrlf(s) {
      var line, rest := s[..CrlfAt(s)], s[CrlfAt(s) + 2..];
      LaterBytesKeepCut(s, more);
      if !Stops(req, line) {
        ParseResumes(Feed(req, line), rest, more);
      }
    }
  }

  /** The same for any buffer, while there is no verdict. */
  lemma BufferResumes(req: Request, s: string, more: string, full: bool)
    requires ParseRequest(req, s).outcome == NoRequest
    ensures ParseBuffer(req, s + more, full) ==
            ParseBuffer(ParseRequest(req, s).req, ParseRequest(req, s).unread + more, full)
  {
    ParseResumes(req, s, more);
  }

  /** In the complete state the next line is consumed for the verdict, if there is one. */
  lemma CompleteTakesLine(req: Request, more: string, full: bool)
    requires req.state.Complete?
    ensures ParseBuffer(req, more, full) ==
            if HasCrlf(more) then Parsed(GoodRequest, req, more[CrlfAt(more) + 2..])
            else if full then Parsed(NoRequest, req, more)
            else Parsed(GoodRequest, req, "")
  {}

  lemma CutLineIsClean(s: string)
    requires HasCrlf(s)
    ensures !HasCrlf(s[..CrlfAt(s)])
    ensures s[..CrlfAt(s)] != "\r\n"
  {
    var line := s[..CrlfAt(s)];
    forall i: nat
      ensures !CrlfHere(line, i)
    {
      assert CrlfHere(line, i) ==> CrlfHere(s, i);
    }
    assert !CrlfHere(line, 0);
  }
}
