/**
 The classes behind `HttpParsing`: the input buffer with its two indices, and the request
 whose fields the parser updates.
 */
module HttpRequests {
  import opened HttpParsing

  class Buffer {
    var buffer: seq<char>
    var readIndex: nat
    var writeIndex: nat

    ghost predicate Valid()
      reads this
    {
      readIndex <= writeIndex <= |buffer|
    }

    function Unread(): string
      requires Valid()
      reads this
    {
      buffer[readIndex..writeIndex]
    }

    /** No free space: only then does the end of the search range equal the end of the vector. */
    predicate Full()
      reads this
    {
      writeIndex == |buffer|
    }

    function ReadableBytes(): (n: nat)
      requires Valid()
      reads this
      ensures n == |Unread()|
    {
      writeIndex - readIndex
    }

    function WriteableBytes(): (n: nat)
      requires Valid()
      reads this
      ensures writeIndex + n == |buffer| && (n == 0 <==> Full())
    {
      |buffer| - writeIndex
    }

    constructor (bytes: seq<char>, used: nat)
      requires used <= |bytes|
      ensures Valid() && Unread() == bytes[..used]
      ensures buffer == bytes && readIndex == 0 && writeIndex == used
    {
      buffer, readIndex, writeIndex := bytes, 0, used;
    }

    /**
     Cuts off the next line. With no CRLF left the sentinel comes back exactly when the
     buffer is full; otherwise the unterminated rest is taken for a line and the read index
     ends up two past the write index.
     */
    method ReadByLine() returns (line: string)
      requires Valid()
      modifies this`readIndex
      ensures var s := old(Unread());
              if HasCrlf(s) then Valid() && line == s[..CrlfAt(s)] && Unread() == s[CrlfAt(s) + 2..]
              else if Full() then line == "\r\n" && readIndex == old(readIndex)
              else line == s && readIndex == writeIndex + 2
      ensures line == "\r\n" <==> !HasCrlf(old(Unread())) && Full()
    {
      ghost var s := Unread();
      var res := readIndex + CrlfAt(buffer[readIndex..writeIndex]);
      assert HasCrlf(s) ==> s[..CrlfAt(s)] == buffer[readIndex..res];
      assert HasCrlf(s) ==> s[CrlfAt(s) + 2..] == buffer[res + 2..writeIndex];
      assert CrlfHere("\r\n", 0);
      if HasCrlf(s) {
        CutLineIsClean(s);
      }
      if res == |buffer| {
        return "\r\n";
      }
      line := buffer[readIndex..res];
      readIndex := res + 2;
    }

    method Reset()
      modifies this
      ensures Valid() && Unread() == "" && buffer == old(buffer)
    {
      readIndex := 0;
      writeIndex := 0;
    }
  }

  class HttpRequest {
    var lineBuf: string
    var parseState: ParseState
    var method_: string
    var path: string
    var version: string
    var headers: map<string, string>

    ghost function Fields(): Request
      reads this
    {
      Request(parseState, method_, path, version, headers)
    }

    constructor ()
      ensures Fields() == Request(RequestLine, "", "", "", map[])
    {
      lineBuf, parseState := "", RequestLine;
      method_, path, version, headers := "", "", "", map[];
    }

    method Reset()
      modifies this
      ensures Fields() == old(Fields()).(state := RequestLine, headers := map[])
    {
      parseState := RequestLine;
      headers := map[];
    }

    /** The switch on the state, for one line: a verdict, or the line is taken in. */
    method TakeIn(line: string) returns (verdict: bool, outcome: Outcome)
      modifies this`parseState, this`method_, this`path, this`version, this`headers
      ensures verdict <==> Stops(old(Fields()), line)
      ensures if verdict then outcome == Verdict(old(Fields())) && Fields() == old(Fields())
              else Fields() == Feed(old(Fields()), line)
    {
      verdict, outcome := false, NoRequest;
      match parseState {
        case RequestLine =>
          ParseRequestLine(line);
        case Header =>
          if SubstrThrows(line) {
            return true, OutOfRange;
          }
          ParseHeaders(line);
        case Body =>
        case Complete =>
          return true, GoodRequest;
      }
    }

    /**
     The state machine, line by line until it has a verdict or no line is left. With free
     space in the buffer it can run out of both: having taken the unterminated rest for a
     line, it would search from past the write index.
     */
    method ParseRequest(input: Buffer) returns (outcome: Outcome)
      requires input.Valid()
      modifies this, input`readIndex
      ensures var parsed := ParseBuffer(old(Fields()), old(input.Unread()), input.Full());
              outcome == parsed.outcome && Fields() == parsed.req
              && (input.Valid() ==> input.Unread() == parsed.unread)
      ensures if RunsOut(old(Fields()), old(input.Unread()), input.Full())
              then input.readIndex == input.writeIndex + 2 else input.Valid()
    {
      ghost var parsed := ParseBuffer(Fields(), input.Unread(), input.Full());
      ghost var runsOut := RunsOut(Fields(), input.Unread(), input.Full());
      while input.readIndex <= input.writeIndex
        invariant input.Valid() ==> ParseBuffer(Fields(), input.Unread(), input.Full()) == parsed
        invariant input.Valid() ==> RunsOut(Fields(), input.Unread(), input.Full()) == runsOut
        invariant !input.Valid() ==> parsed == Parsed(BadRange, Fields(), "")
        invariant !input.Valid() ==> runsOut && input.readIndex == input.writeIndex + 2
        invariant input.writeIndex <= |input.buffer|
        decreases if input.Valid() then 1 + |input.Unread()| else 0
      {
        if HasCrlf(input.Unread()) {
          BufferStep(Fields(), input.Unread(), input.Full());
        } else {
          LastStep(Fields(), input.Unread());
        }
        lineBuf := input.ReadByLine();
        if lineBuf == "\r\n" {
          return NoRequest;
        }
        var verdict;
        verdict, outcome := TakeIn(lineBuf);
        if verdict {
          return;
        }
      }
      outcome := BadRange;
    }

    /** `iss >> method_ >> path_ >> version_`. */
    method ParseRequestLine(line: string)
      modifies this`method_, this`path, this`version, this`parseState
      ensures Fields() == HttpParsing.ParseRequestLine(old(Fields()), line)
    {
      var r := Extract(line, method_);
      method_ := r.0;
      r := Extract(r.1, path);
      path := r.0;
      r := Extract(r.1, version);
      version := r.0;
      parseState := Header;
    }

    method ParseHeaders(line: string)
      requires !SubstrThrows(line)
      modifies this`parseState, this`headers
      ensures Fields() == HttpParsing.ParseHeaders(old(Fields()), line)
    {
      if |line| == 0 {
        if method_ == "GET" {
          parseState := Complete;
        } else if method_ == "POST" {
          parseState := Body;
        }
      } else {
        var pos := IndexOf(line, ':');
        var key, value;
        if pos == |line| {
          key, value := line, line[1..];
        } else {
          key, value := line[..pos], line[pos + 2..];
        }
        headers := headers[key := value];
      }
    }
  }
}
