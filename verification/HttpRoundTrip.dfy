/**
 Printer against parser: what `HttpRequest::ParseRequest` makes of the text that
 `build_request` assembles, for every method, version, proxy and reload setting.
 */
module HttpRoundTrip {
  import opened Sequences
  import opened LineFraming
  import opened HttpParsing
  import opened WebBench
  import HttpRequests

  // ------------------------------------------------- what the parser keeps

  lemma SlicesStayClean(s: string, i: nat, j: nat)
    requires i <= j <= |s| && !HasCrlf(s)
    ensures !HasCrlf(s[i..j])
  {
    forall k: nat
      ensures !CrlfHere(s[i..j], k)
    {
      assert CrlfHere(s[i..j], k) ==> CrlfHere(s, i + k);
      assert CrlfHere(s, i + k) ==> i + k < |s|;
    }
  }

  /** Parsed paths hold no white space, and parsed header values no CRLF. */
  ghost predicate KeptClean(req: Request) {
    Spaceless(req.path) && forall key | key in req.headers :: !HasCrlf(req.headers[key])
  }

  lemma FeedKeepsClean(req: Request, line: string)
    requires KeptClean(req) && !Stops(req, line) && !HasCrlf(line)
    ensures KeptClean(Feed(req, line))
  {
    if req.state.Header? && line != "" {
      var pos := IndexOf(line, ':');
      if pos == |line| {
        SlicesStayClean(line, 1, |line|);
        assert line[1..|line|] == line[1..];
      } else {
        SlicesStayClean(line, pos + 2, |line|);
        assert line[pos + 2..|line|] == line[pos + 2..];
      }
    }
  }

  lemma {:induction false} ParseKeepsClean(req: Request, s: string)
    requires KeptClean(req)
    ensures KeptClean(ParseRequest(req, s).req)
    decreases |s|
  {
    if HasCrlf(s) {
      var line, rest := s[..CrlfAt(s)], s[CrlfAt(s) + 2..];
      CutLineIsClean(s);
      if !Stops(req, line) {
        FeedKeepsClean(req, line);
        ParseKeepsClean(Feed(req, line), rest);
      }
    }
  }

  // ------------------------------------------------------ the request line

  lemma WordEndsAt(s: string, n: nat)
    requires n <= |s| && Spaceless(s[..n]) && (n < |s| ==> IsSpace(s[n]))
    ensures WordEnd(s) == n
  {
    var e := WordEnd(s);
    assert forall i | 0 <= i < n :: s[i] == s[..n][i];
    assert forall i | 0 <= i < e :: s[i] == s[..e][i];
    assert !(e < n) && !(n < e);
  }

  /** A word in front of the end or of white space is extracted whole. */
  lemma ExtractsWord(word: string, more: string, target: string)
    requires word != "" && Spaceless(word) && (more != "" ==> IsSpace(more[0]))
    ensures Extract(word + more, target) == (word, more)
    ensures Extract(" " + word + more, target) == (word, more)
  {
    var s := word + more;
    assert !IsSpace(word[0]) && s[0] == word[0];
    assert s[..|word|] == word && s[|word|..] == more;
    WordEndsAt(s, |word|);
    assert (" " + word + more)[1..] == s;
  }

  /** Any of the six spaces in front of a word is skipped. */
  lemma ExtractsAfter(sep: char, word: string, more: string, target: string)
    requires sep in [' ', '\t', '\n', '\U{0B}', '\U{0C}', '\r']
    requires word != "" && Spaceless(word) && (more != "" ==> IsSpace(more[0]))
    ensures Extract([sep] + (word + more), target) == (word, more)
  {
    ExtractsWord(word, more, target);
    assert ([sep] + (word + more))[1..] == word + more;
    assert !IsSpace((word + more)[0]) by {
      assert (word + more)[0] == word[0];
    }
  }

  lemma VisibleWord(word: string)
    requires forall c | c in word :: '!' <= c <= '~'
    ensures Spaceless(word)
  {
    assert forall i | 0 <= i < |word| :: word[i] in word;
  }

  /**
   A request line of three visible words, with any of the six white-space characters between
   them, is parsed into exactly these words.
   */
  lemma ThreeWords(req: Request, method_: string, target: string, version: string, a: char, b: char)
    requires method_ != "" && target != "" && version != ""
    requires forall c | c in method_ + target + version :: '!' <= c <= '~'
    requires a in [' ', '\t', '\n', '\U{0B}', '\U{0C}', '\r'] && b in [' ', '\t', '\n', '\U{0B}', '\U{0C}', '\r']
    ensures ParseRequestLine(req, method_ + ([a] + (target + ([b] + version)))) ==
            req.(state := Header, method_ := method_, path := target, version := version)
  {
    WordsOf(method_, target, version);
    var rest := [a] + (target + ([b] + version));
    ExtractsWord(method_, rest, req.method_);
    ExtractsAfter(a, target, [b] + version, req.path);
    EmptyConcatRight(version);
    ExtractsAfter(b, version, "", req.version);
  }

  lemma WordsOf(first: string, second: string, third: string)
    requires forall c | c in first + second + third :: '!' <= c <= '~'
    ensures Spaceless(first) && Spaceless(second) && Spaceless(third)
  {
    assert forall c | c in first :: c in first + second + third;
    assert forall c | c in second :: c in first + second + third;
    assert forall c | c in third :: c in first + second + third;
    VisibleWord(first);
    VisibleWord(second);
    VisibleWord(third);
  }

  lemma EmptyConcatRight(s: string)
    ensures s + "" == s
  {}

  /** Missing words leave their fields as they were. */
  lemma FewerWords(req: Request, method_: string, target: string)
    requires method_ != "" && target != "" && forall c | c in method_ + target + "" :: '!' <= c <= '~'
    ensures ParseRequestLine(req, "") == req.(state := Header)
    ensures ParseRequestLine(req, method_) == req.(state := Header, method_ := method_)
    ensures ParseRequestLine(req, method_ + (" " + target)) ==
            req.(state := Header, method_ := method_, path := target)
  {
    WordsOf(method_, target, "");
    EmptyConcatRight(method_);
    EmptyConcatRight(target);
    ExtractsWord(method_, "", req.method_);
    ExtractsWord(method_, " " + target, req.method_);
    ExtractsAfter(' ', target, "", req.path);
  }

  function VersionText(v: Version): string
    requires v > 0
  {
    if v == 1 then "HTTP/1.0" else "HTTP/1.1"
  }

  lemma SuffixParses(v: Version, target: string)
    ensures Extract(VersionSuffix(v), target).0 == if v > 0 then VersionText(v) else target
    ensures VersionSuffix(v) != "" ==> IsSpace(VersionSuffix(v)[0])
  {
    if v > 0 {
      ExtractsWord(VersionText(v), "", target);
      assert VersionSuffix(v) == " " + VersionText(v) + "";
    }
  }

  lemma NamesAreWords(m: Method)
    ensures Name(m) != "" && Spaceless(Name(m)) && Name(m) != "POST"
    ensures Name(m) == "GET" <==> m.Get?
  {}

  lemma StartLineParses(req: Request, m: Method, target: string, v: Version)
    requires target != "" && Spaceless(target)
    ensures ParseRequestLine(req, Start(m, target, v).Text()) ==
            req.(state := Header, method_ := Name(m), path := target,
                 version := if v > 0 then VersionText(v) else req.version)
  {
    var name, suffix := Name(m), VersionSuffix(v);
    var rest := " " + target + suffix;
    NamesAreWords(m);
    SuffixParses(v, req.version);
    assert Extract(name + rest, req.method_) == (name, rest) by {
      ExtractsWord(name, rest, req.method_);
    }
    assert Extract(rest, req.path) == (target, suffix) by {
      ExtractsWord(target, suffix, req.path);
    }
    assert name + " " + target + suffix == name + rest by {
      Assoc(name, " ", target);
      Assoc(name, " " + target, suffix);
    }
  }

  // ------------------------------------------------------- header lines

  predicate IsField(line: Line) {
    line.UserAgent? || line.Host? || line.Pragma? || line.Connection?
  }

  function Key(line: Line): string
    requires IsField(line)
  {
    match line
    case UserAgent => "User-Agent"
    case Host(_) => "Host"
    case Pragma => "Pragma"
    case Connection => "Connection"
  }

  function Value(line: Line): string
    requires IsField(line)
  {
    match line
    case UserAgent => "WebBench 1.5"
    case Host(name) => name
    case Pragma => "no-cache"
    case Connection => "close"
  }

  /** A `key: value` line splits at its first ':' and the value starts two further on. */
  lemma FieldSplits(key: string, value: string)
    requires ':' !in key
    ensures var line := key + ": " + value;
            line != "" && !SubstrThrows(line) && Field(line) == (key, value)
  {
    var line := key + ": " + value;
    assert line[..|key|] == key;
    IndexUnique(line, ':', |key|);
    assert line[|key| + 2..] == value;
  }

  lemma FieldText(line: Line)
    requires IsField(line)
    ensures line.Text() == Key(line) + ": " + Value(line)
    ensures ':' !in Key(line)
  {
    match line
    case UserAgent => UserAgentText();
    case Host(name) => Assoc("Host", ": ", name);
    case Pragma => PragmaText();
    case Connection => ConnectionText();
  }

  lemma UserAgentText()
    ensures "User-Agent: WebBench 1.5" == "User-Agent" + ": " + "WebBench 1.5"
  {}

  lemma PragmaText()
    ensures "Pragma: no-cache" == "Pragma" + ": " + "no-cache"
  {}

  lemma ConnectionText()
    ensures "Connection: close" == "Connection" + ": " + "close"
  {}

  /** What one printed line does to a request in the header state. */
  function Understood(req: Request, line: Line): Request {
    if IsField(line) then req.(headers := req.headers[Key(line) := Value(line)])
    else if line.Blank? && req.method_ == "GET" then req.(state := Complete)
    else req
  }

  lemma LineUnderstood(req: Request, line: Line)
    requires req.state.Header? && (IsField(line) || line.Blank?) && req.method_ != "POST"
    ensures !Stops(req, line.Text()) && Feed(req, line.Text()) == Understood(req, line)
  {
    if IsField(line) {
      FieldText(line);
      FieldSplits(Key(line), Value(line));
    }
  }

  function UnderstoodAll(req: Request, lines: seq<Line>): Request
    decreases |lines|
  {
    if lines == [] then req else UnderstoodAll(Understood(req, lines[0]), lines[1..])
  }

  lemma {:induction false} UnderstoodConcat(req: Request, first: seq<Line>, second: seq<Line>)
    ensures UnderstoodAll(req, first + second) == UnderstoodAll(UnderstoodAll(req, first), second)
    decreases |first|
  {
    if first == [] {
      EmptyConcat(first, second);
    } else {
      TailOfConcat(first, second);
      UnderstoodConcat(Understood(req, first[0]), first[1..], second);
    }
  }

  /** Header lines in which a blank one can only come last. */
  predicate HeaderBlock(lines: seq<Line>) {
    lines == [] || (IsField(lines[0]) && HeaderBlock(lines[1..])) || lines == [Blank]
  }

  ghost predicate CleanLines(lines: seq<Line>) {
    forall line | line in lines :: !HasCrlf(line.Text())
  }

  lemma ParseStep(req: Request, line: string, more: string)
    requires !HasCrlf(line) && !Stops(req, line)
    ensures ParseRequest(req, Terminated(line) + more) == ParseRequest(Feed(req, line), more)
  {
    CutsTerminated(line, more);
  }

  /** Parsing a printed header block feeds the parser exactly its lines. */
  lemma {:induction false} BlockParses(req: Request, lines: seq<Line>)
    requires req.state.Header? && req.method_ != "POST" && HeaderBlock(lines) && CleanLines(lines)
    ensures ParseRequest(req, Print(lines)) == Parsed(NoRequest, UnderstoodAll(req, lines), "")
    decreases |lines|
  {
    if lines != [] {
      var line, rest := lines[0], lines[1..];
      LineUnderstood(req, line);
      ParseStep(req, line.Text(), Print(rest));
      if !line.Blank? {
        BlockParses(Understood(req, line), rest);
      }
    }
  }

  // ---------------------------------------------------------- the theorem

  function PrintedFields(v: Version, proxied: bool, reload: bool, host: string): map<string, string> {
    (if v > 0 then map["User-Agent" := "WebBench 1.5"] else map[])
    + (if !proxied && v > 0 then map["Host" := host] else map[])
    + (if reload && proxied then map["Pragma" := "no-cache"] else map[])
    + (if v > 1 then map["Connection" := "close"] else map[])
  }

  /** The request as printed; HTTP/0.9 prints no version and no headers, so the parser waits for more. */
  function Printed(req: Request, m: Method, v: Version, proxied: bool, reload: bool, url: string): Request {
    Request(
      if m.Get? && v > 0 then Complete else Header,
      Name(m),
      Target(url, proxied),
      if v > 0 then VersionText(v) else req.version,
      PrintedFields(v, proxied, reload, HostCopied(url, proxied)))
  }

  lemma WhenUnderstood(req: Request, b: bool, line: Line)
    ensures UnderstoodAll(req, When(b, line)) == if b then Understood(req, line) else req
  {}

  /** Everything behind the request line. */
  function Block(v: Version, proxied: bool, reload: bool, host: string): seq<Line> {
    When(v > 0, UserAgent)
    + When(!proxied && v > 0, Host(host))
    + When(reload && proxied, Pragma)
    + When(v > 1, Connection)
    + When(v > 0, Blank)
  }

  lemma LinesAreStartAndBlock(m: Method, v: Version, proxied: bool, reload: bool, url: string)
    ensures var lines := RequestLines(m, v, proxied, reload, url);
            && lines != [] && lines[0] == Start(m, Target(url, proxied), v)
            && lines[1..] == Block(v, proxied, reload, HostCopied(url, proxied))
  {
    var start, host := [Start(m, Target(url, proxied), v)], HostCopied(url, proxied);
    var a, b := When(v > 0, UserAgent), When(!proxied && v > 0, Host(host));
    var c, d := When(reload && proxied, Pragma), When(v > 1, Connection);
    Assoc(start, a, b);
    Assoc(start, a + b, c);
    Assoc(start, a + b + c, d);
    Assoc(start, a + b + c + d, When(v > 0, Blank));
    TailOfConcat(start, Block(v, proxied, reload, host));
    EmptyConcat(start[1..], Block(v, proxied, reload, host));
  }

  lemma {:induction false} FieldsThenBlank(fields: seq<Line>, b: bool)
    requires forall line | line in fields :: IsField(line)
    ensures HeaderBlock(fields + When(b, Blank))
  {
    if fields == [] {
      EmptyConcat(fields, When(b, Blank));
    } else {
      TailOfConcat(fields, When(b, Blank));
      FieldsThenBlank(fields[1..], b);
    }
  }

  lemma BlockIsHeaderBlock(v: Version, proxied: bool, reload: bool, host: string)
    ensures HeaderBlock(Block(v, proxied, reload, host))
    ensures forall line | line in Block(v, proxied, reload, host) ::
              line.Host? ==> line == Host(host) && v > 0 && !proxied
    ensures forall line | line in Block(v, proxied, reload, host) :: IsField(line) || line.Blank?
  {
    var fields := When(v > 0, UserAgent) + When(!proxied && v > 0, Host(host))
                  + When(reload && proxied, Pragma) + When(v > 1, Connection);
    FieldsThenBlank(fields, v > 0);
  }

  lemma BlockIsClean(v: Version, proxied: bool, reload: bool, host: string)
    requires v > 0 && !proxied ==> !HasCrlf(host)
    ensures CleanLines(Block(v, proxied, reload, host))
  {
    BlockIsHeaderBlock(v, proxied, reload, host);
    forall line | line in Block(v, proxied, reload, host)
      ensures !HasCrlf(line.Text())
    {
      LineIsClean(line);
    }
  }

  lemma LineIsClean(line: Line)
    requires !line.Start? && (line.Host? ==> !HasCrlf(line.name))
    ensures !HasCrlf(line.Text())
  {
    match line
    case UserAgent => NoReturnNoCrlf("User-Agent: WebBench 1.5");
    case Host(name) => HostLineIsClean(name);
    case Pragma => NoReturnNoCrlf("Pragma: no-cache");
    case Connection => NoReturnNoCrlf("Connection: close");
    case Blank =>
  }

  lemma NoReturnNoCrlf(s: string)
    requires '\r' !in s
    ensures !HasCrlf(s)
  {}

  lemma HostLineIsClean(host: string)
    requires !HasCrlf(host)
    ensures !HasCrlf(Host(host).Text())
  {
    var line := "Host: " + host;
    forall i: nat
      ensures !CrlfHere(line, i)
    {
      if i >= 6 {
        assert CrlfHere(line, i) <==> CrlfHere(host, i - 6);
        assert CrlfHere(host, i - 6) ==> i - 6 < |host|;
      } else {
        assert line[i] == "Host: "[i] != '\r';
      }
    }
  }

  lemma FiveParts(req: Request, a: seq<Line>, b: seq<Line>, c: seq<Line>, d: seq<Line>, e: seq<Line>)
    ensures UnderstoodAll(req, a + b + c + d + e) ==
            UnderstoodAll(UnderstoodAll(UnderstoodAll(UnderstoodAll(UnderstoodAll(req, a), b), c), d), e)
  {
    UnderstoodConcat(req, a, b);
    UnderstoodConcat(req, a + b, c);
    UnderstoodConcat(req, a + b + c, d);
    UnderstoodConcat(req, a + b + c + d, e);
  }

  /** The header block, one optional line after the other. */
  lemma BlockInStages(req: Request, v: Version, proxied: bool, reload: bool, host: string,
                      r1: Request, r2: Request, r3: Request, r4: Request)
    requires r1 == if v > 0 then Understood(req, UserAgent) else req
    requires r2 == if !proxied && v > 0 then Understood(r1, Host(host)) else r1
    requires r3 == if reload && proxied then Understood(r2, Pragma) else r2
    requires r4 == if v > 1 then Understood(r3, Connection) else r3
    ensures UnderstoodAll(req, Block(v, proxied, reload, host)) == if v > 0 then Understood(r4, Blank) else r4
  {
    WhenUnderstood(req, v > 0, UserAgent);
    WhenUnderstood(r1, !proxied && v > 0, Host(host));
    WhenUnderstood(r2, reload && proxied, Pragma);
    WhenUnderstood(r3, v > 1, Connection);
    WhenUnderstood(r4, v > 0, Blank);
    FiveParts(req, When(v > 0, UserAgent), When(!proxied && v > 0, Host(host)),
              When(reload && proxied, Pragma), When(v > 1, Connection), When(v > 0, Blank));
  }

  function WithField(b: bool, fields: map<string, string>, key: string, value: string): map<string, string> {
    if b then fields[key := value] else fields
  }

  lemma FieldUnderstood(req: Request, b: bool, line: Line)
    requires IsField(line)
    ensures (if b then Understood(req, line) else req)
         == req.(headers := WithField(b, req.headers, Key(line), Value(line)))
  {}

  /** The header block leaves exactly the printed fields, and completes a GET. */
  lemma BlockUnderstood(req: Request, v: Version, proxied: bool, reload: bool, host: string)
    requires req.state.Header? && req.headers == map[]
    ensures UnderstoodAll(req, Block(v, proxied, reload, host)) ==
            req.(state := if req.method_ == "GET" && v > 0 then Complete else Header,
                 headers := PrintedFields(v, proxied, reload, host))
  {
    var h1 := WithField(v > 0, req.headers, "User-Agent", "WebBench 1.5");
    var h2 := WithField(!proxied && v > 0, h1, "Host", host);
    var h3 := WithField(reload && proxied, h2, "Pragma", "no-cache");
    var h4 := WithField(v > 1, h3, "Connection", "close");
    FieldUnderstood(req, v > 0, UserAgent);
    FieldUnderstood(req.(headers := h1), !proxied && v > 0, Host(host));
    FieldUnderstood(req.(headers := h2), reload && proxied, Pragma);
    FieldUnderstood(req.(headers := h3), v > 1, Connection);
    BlockInStages(req, v, proxied, reload, host,
                  req.(headers := h1), req.(headers := h2), req.(headers := h3), req.(headers := h4));
    FieldsCollected(v, proxied, reload, host);
  }

  lemma FieldsCollected(v: Version, proxied: bool, reload: bool, host: string)
    ensures var h1 := WithField(v > 0, map[], "User-Agent", "WebBench 1.5");
            var h2 := WithField(!proxied && v > 0, h1, "Host", host);
            var h3 := WithField(reload && proxied, h2, "Pragma", "no-cache");
            WithField(v > 1, h3, "Connection", "close") == PrintedFields(v, proxied, reload, host)
  {}

  /** The start line of a clean target has no CRLF in it. */
  lemma StartLineIsClean(m: Method, target: string, v: Version)
    requires Spaceless(target)
    ensures !HasCrlf(Start(m, target, v).Text())
  {
    NamesAreWords(m);
    assert '\r' !in Name(m) && '\r' !in target && '\r' !in VersionSuffix(v);
    NoReturnNoCrlf(Start(m, target, v).Text());
  }

  /** A request as `Reset` leaves it, whatever the fields it does not reset hold from before. */
  ghost predicate Fresh(req: Request) {
    req.state.RequestLine? && req.headers == map[] && Spaceless(req.path)
  }

  /** A new request is fresh, and so is one that `Reset` follows, whatever was parsed before. */
  lemma ResetIsFresh(req: Request, s: string)
    requires Fresh(req)
    ensures Fresh(ParseRequest(req, s).req.(state := RequestLine, headers := map[]))
    ensures Fresh(Request(RequestLine, "", "", "", map[]))
  {
    ParseKeepsClean(req, s);
  }

  lemma TargetNotEmpty(url: string, proxied: bool)
    requires Judge(url, proxied) == Accepted
    ensures Target(url, proxied) != ""
  {}

  /** No white space in the target, and no CRLF in the host name if it is printed. */
  ghost predicate Printable(v: Version, proxied: bool, url: string) {
    Spaceless(Target(url, proxied)) && (v > 0 && !proxied ==> !HasCrlf(HostOf(url)))
  }

  /** The request line is parsed, and the rest is parsed as its fields say. */
  lemma StartRoundTrip(req: Request, m: Method, target: string, v: Version, more: string)
    requires req.state.RequestLine? && target != "" && Spaceless(target)
    ensures ParseRequest(req, Terminated(Start(m, target, v).Text()) + more) ==
            ParseRequest(Begun(req, m, target, v), more)
  {
    StartLineIsClean(m, target, v);
    StartLineParses(req, m, target, v);
    ParseStep(req, Start(m, target, v).Text(), more);
  }

  function Begun(req: Request, m: Method, target: string, v: Version): Request {
    req.(state := Header, method_ := Name(m), path := target,
         version := if v > 0 then VersionText(v) else req.version)
  }

  lemma BlockRoundTrip(req: Request, m: Method, v: Version, proxied: bool, reload: bool, host: string)
    requires req.state.Header? && req.headers == map[] && req.method_ == Name(m)
    requires v > 0 && !proxied ==> !HasCrlf(host)
    ensures ParseRequest(req, Print(Block(v, proxied, reload, host))) ==
            Parsed(NoRequest,
                   req.(state := if m.Get? && v > 0 then Complete else Header,
                        headers := PrintedFields(v, proxied, reload, host)),
                   "")
  {
    NamesAreWords(m);
    BlockIsHeaderBlock(v, proxied, reload, host);
    BlockIsClean(v, proxied, reload, host);
    BlockParses(req, Block(v, proxied, reload, host));
    BlockUnderstood(req, v, proxied, reload, host);
  }

  lemma RoundTrip(req: Request, m: Method, v: Version, proxied: bool, reload: bool, url: string)
    requires Judge(url, proxied) == Accepted && Fresh(req)
    requires Printable(v, proxied, url)
    ensures ParseRequest(req, Print(RequestLines(m, v, proxied, reload, url)))
         == Parsed(NoRequest, Printed(req, m, v, proxied, reload, url), "")
  {
    var target, host := Target(url, proxied), HostCopied(url, proxied);
    LinesAreStartAndBlock(m, v, proxied, reload, url);
    TargetNotEmpty(url, proxied);
    StartRoundTrip(req, m, target, v, Print(Block(v, proxied, reload, host)));
    BlockRoundTrip(Begun(req, m, target, v), m, v, proxied, reload, host);
  }

  /**
   Printer and parser agree exactly when they can: for every accepted URL and every setting,
   parsing the assembled text gives back the method, the target, the version and exactly the
   printed header fields, with nothing unread, if and only if the target has no white space
   and the printed host name no CRLF. A GET with headers ends complete, and the call
   nevertheless reports that it waits for more.
   */
  lemma RoundTripIff(req: Request, m: Method, v: Version, proxied: bool, reload: bool, url: string)
    requires Judge(url, proxied) == Accepted && Fresh(req)
    ensures ParseRequest(req, Print(RequestLines(m, v, proxied, reload, url)))
         == Parsed(NoRequest, Printed(req, m, v, proxied, reload, url), "")
       <==> Printable(v, proxied, url)
  {
    var parsed := ParseRequest(req, Print(RequestLines(m, v, proxied, reload, url)));
    var printed := Printed(req, m, v, proxied, reload, url);
    if Printable(v, proxied, url) {
      RoundTrip(req, m, v, proxied, reload, url);
    } else {
      ParseKeepsClean(req, Print(RequestLines(m, v, proxied, reload, url)));
      PrintedIsNotClean(req, m, v, proxied, reload, url);
    }
  }

  /** White space in the target or a CRLF in the host name show in what was printed, but never in what is parsed. */
  lemma PrintedIsNotClean(req: Request, m: Method, v: Version, proxied: bool, reload: bool, url: string)
    requires !Printable(v, proxied, url)
    ensures !KeptClean(Printed(req, m, v, proxied, reload, url))
  {
    var printed := Printed(req, m, v, proxied, reload, url);
    if Spaceless(Target(url, proxied)) {
      assert "Host" in printed.headers && printed.headers["Host"] == HostOf(url);
    }
  }

  /**
   What it takes for the call to say that a printed GET is good: the next line. Whatever
   follows the request, the first line behind it is consumed by the verdict; while there is
   none, a full buffer keeps what there is and says nothing, and one with free space takes
   it for a line.
   */
  lemma NextLineDecides(req: Request, v: Version, proxied: bool, reload: bool, url: string, more: string, full: bool)
    requires Judge(url, proxied) == Accepted && Fresh(req) && Printable(v, proxied, url) && v > 0
    ensures var printed := Printed(req, Get, v, proxied, reload, url);
            ParseBuffer(req, Print(RequestLines(Get, v, proxied, reload, url)) + more, full) ==
            if HasCrlf(more) then Parsed(GoodRequest, printed, more[CrlfAt(more) + 2..])
            else if full then Parsed(NoRequest, printed, more)
            else Parsed(GoodRequest, printed, "")
  {
    var text := Print(RequestLines(Get, v, proxied, reload, url));
    RoundTrip(req, Get, v, proxied, reload, url);
    BufferResumes(req, text, more, full);
    EmptyConcat("", more);
    CompleteTakesLine(Printed(req, Get, v, proxied, reload, url), more, full);
  }

  /** Of two requests sent back to back, the second one loses its request line to the first one's verdict. */
  lemma SecondLosesItsLine(req: Request, v: Version, proxied: bool, reload: bool, url: string,
                           m: Method, target: string, w: Version, rest: string, full: bool)
    requires Judge(url, proxied) == Accepted && Fresh(req) && Printable(v, proxied, url) && v > 0
    requires Spaceless(target)
    ensures var both := Print(RequestLines(Get, v, proxied, reload, url))
                        + (Terminated(Start(m, target, w).Text()) + rest);
            ParseBuffer(req, both, full) == Parsed(GoodRequest, Printed(req, Get, v, proxied, reload, url), rest)
  {
    StartLineIsClean(m, target, w);
    CutsTerminated(Start(m, target, w).Text(), rest);
    NextLineDecides(req, v, proxied, reload, url, Terminated(Start(m, target, w).Text()) + rest, full);
  }

  lemma BufferKeepsClean(req: Request, s: string, full: bool)
    requires KeptClean(req)
    ensures KeptClean(ParseBuffer(req, s, full).req)
  {
    var p := ParseRequest(req, s);
    ParseKeepsClean(req, s);
    LosslessLines(req, s);
    if RunsOut(req, s, full) && !Stops(p.req, p.unread) {
      FeedKeepsClean(p.req, p.unread);
    }
  }

  /** The path that is printed, on the URL alone. */
  lemma PrintedPath(req: Request, m: Method, v: Version, proxied: bool, reload: bool, url: string)
    requires Judge(url, proxied) == Accepted
    ensures var path := Printed(req, m, v, proxied, reload, url).path;
            if proxied then path == url else FromFirstSlash(url, path)
  {
    if !proxied {
      TargetOfUrl(url);
    }
  }

  /**
   The round trip for every URL of visible characters, in the terms of the URL: the parser
   ends up with the method, the path, the version and the header fields that were meant, in
   the complete state after a GET with headers.
   */
  lemma VisibleUrlRoundTrips(req: Request, m: Method, v: Version, proxied: bool, reload: bool, url: string)
    requires Judge(url, proxied) == Accepted && Fresh(req) && forall c | c in url :: '!' <= c <= '~'
    ensures var p := ParseRequest(req, Print(RequestLines(m, v, proxied, reload, url)));
            && p.outcome == NoRequest && p.unread == ""
            && p.req.method_ ==
               (match m case Get => "GET" case Head => "HEAD" case Options => "OPTIONS" case Trace => "TRACE")
            && (if proxied then p.req.path == url else FromFirstSlash(url, p.req.path))
            && p.req.version == (if v == 1 then "HTTP/1.0" else if v == 2 then "HTTP/1.1" else req.version)
            && (p.req.state.Complete? <==> m.Get? && v > 0)
    ensures var headers := ParseRequest(req, Print(RequestLines(m, v, proxied, reload, url))).req.headers;
            && ("User-Agent" in headers <==> v > 0) && (v > 0 ==> headers["User-Agent"] == "WebBench 1.5")
            && ("Host" in headers <==> v > 0 && !proxied)
            && (v > 0 && !proxied ==> headers["Host"] == HostOf(url))
            && ("Pragma" in headers <==> reload && proxied) && ("Connection" in headers <==> v > 1)
            && headers.Keys <= {"User-Agent", "Host", "Pragma", "Connection"}
  {
    VisibleIsPrintable(v, proxied, url);
    RoundTrip(req, m, v, proxied, reload, url);
    PrintedPath(req, m, v, proxied, reload, url);
    FieldsOf(v, proxied, reload, HostCopied(url, proxied));
  }

  lemma FieldsOf(v: Version, proxied: bool, reload: bool, host: string)
    ensures var headers := PrintedFields(v, proxied, reload, host);
            && ("User-Agent" in headers <==> v > 0) && (v > 0 ==> headers["User-Agent"] == "WebBench 1.5")
            && ("Host" in headers <==> v > 0 && !proxied) && (v > 0 && !proxied ==> headers["Host"] == host)
            && ("Pragma" in headers <==> reload && proxied) && ("Connection" in headers <==> v > 1)
            && headers.Keys <= {"User-Agent", "Host", "Pragma", "Connection"}
  {}

  lemma VisiblePart(s: string, i: nat, j: nat)
    requires i <= j <= |s| && forall c | c in s :: '!' <= c <= '~'
    ensures Spaceless(s[i..j]) && !HasCrlf(s[i..j])
  {
    assert forall c | c in s[i..j] :: c in s;
    VisibleWord(s[i..j]);
    NoReturnNoCrlf(s[i..j]);
  }

  lemma PartsOfUrl(url: string, target: string, host: string, port: string)
    requires FromFirstSlash(url, target) && url[7..|url| - |target|] == host + port
    requires forall c | c in url :: '!' <= c <= '~'
    ensures Spaceless(target) && !HasCrlf(host)
  {
    VisiblePart(url, |url| - |target|, |url|);
    assert url[|url| - |target|..|url|] == target;
    VisiblePart(url, 7, 7 + |host|);
    assert url[7..7 + |host|] == url[7..|url| - |target|][..|host|] == host;
  }

  lemma VisibleIsPrintable(v: Version, proxied: bool, url: string)
    requires Judge(url, proxied) == Accepted && forall c | c in url :: '!' <= c <= '~'
    ensures Printable(v, proxied, url)
  {
    if proxied {
      VisibleWord(url);
    } else {
      TargetOfUrl(url);
      PartsOfUrl(url, Target(url, false), HostOf(url), PortText(SplitUrl(AfterScheme(url))));
    }
  }

  /**
   The same for a buffer with free space behind the request: there the call says that the
   request is good, and the fields are what was printed, if and only if a GET with headers
   was printed from a URL of that kind. Every other call ends with its indices crossed or
   with other fields.
   */
  lemma RoomyRoundTripIff(req: Request, m: Method, v: Version, proxied: bool, reload: bool, url: string)
    requires Judge(url, proxied) == Accepted && Fresh(req)
    ensures ParseBuffer(req, Print(RequestLines(m, v, proxied, reload, url)), false)
         == Parsed(GoodRequest, Printed(req, m, v, proxied, reload, url), "")
       <==> m.Get? && v > 0 && Printable(v, proxied, url)
  {
    var text := Print(RequestLines(m, v, proxied, reload, url));
    if Printable(v, proxied, url) {
      RoundTrip(req, m, v, proxied, reload, url);
    } else {
      BufferKeepsClean(req, text, false);
      PrintedIsNotClean(req, m, v, proxied, reload, url);
    }
  }

  /**
   The two programs end to end, on their own fields: the client assembles a request, and
   the server parses those bytes out of a buffer with `spare` more behind them. In both
   kinds of buffer the parser's fields are what was printed under exactly the conditions
   above, and with free space the outcome says so too.
   */
  method SendAndParse(client: Client, url: string, server: HttpRequests.HttpRequest, spare: string)
      returns (verdict: Verdict, outcome: Outcome)
    requires client.Arrays() && '\0' !in url
    requires Judge(url, client.proxied) == Accepted && !client.proxied ==>
               |HostOf(url)| < 64 && |SplitUrl(AfterScheme(url)).port| < 10
    requires Fresh(server.Fields())
    modifies client`http10, client`proxyport
    modifies client.host, client.host.data, client.request, client.request.data, server
    ensures verdict == Judge(url, client.proxied)
    ensures client.http10 == Normalised(client.method_, client.forceReload, client.proxied, old(client.http10))
    ensures verdict == Accepted && spare == "" ==>
              (outcome == NoRequest && server.Fields() == Expected(client, url, old(server.Fields()))
               <==> Printable(client.http10, client.proxied, url))
    ensures verdict == Accepted && spare != "" ==>
              (outcome == GoodRequest && server.Fields() == Expected(client, url, old(server.Fields()))
               <==> client.method_.Get? && client.http10 > 0 && Printable(client.http10, client.proxied, url))
    ensures verdict == Accepted && server.Fields() == Expected(client, url, old(server.Fields())) ==>
              if client.proxied then server.path == url else FromFirstSlash(url, server.path)
  {
    outcome := NoRequest;
    verdict := client.BuildRequest(url);
    if verdict == Accepted {
      outcome := ParseBuilt(client, url, client.request.Text(), server, spare);
    }
  }

  /** The server's half, on the text the client has built. */
  method ParseBuilt(client: Client, url: string, text: string, server: HttpRequests.HttpRequest, spare: string)
      returns (outcome: Outcome)
    requires Judge(url, client.proxied) == Accepted && Fresh(server.Fields())
    requires text == Print(RequestLines(client.method_, client.http10, client.proxied, client.forceReload, url))
    modifies server
    ensures spare == "" ==>
              (outcome == NoRequest && server.Fields() == Expected(client, url, old(server.Fields()))
               <==> Printable(client.http10, client.proxied, url))
    ensures spare != "" ==>
              (outcome == GoodRequest && server.Fields() == Expected(client, url, old(server.Fields()))
               <==> client.method_.Get? && client.http10 > 0 && Printable(client.http10, client.proxied, url))
    ensures server.Fields() == Expected(client, url, old(server.Fields())) ==>
              if client.proxied then server.path == url else FromFirstSlash(url, server.path)
  {
    outcome := ParseSent(text, server, spare);
    FieldsTell(old(server.Fields()), client.method_, client.http10, client.proxied, client.forceReload, url);
    FieldsTellRoomy(old(server.Fields()), client.method_, client.http10, client.proxied, client.forceReload, url);
    PrintedPath(old(server.Fields()), client.method_, client.http10, client.proxied, client.forceReload, url);
  }

  /** What was printed, in the terms of the client's fields. */
  ghost function Expected(client: Client, url: string, req: Request): Request
    reads client
  {
    Printed(req, client.method_, client.http10, client.proxied, client.forceReload, url)
  }

  method ParseSent(text: string, server: HttpRequests.HttpRequest, spare: string) returns (outcome: Outcome)
    modifies server
    ensures var parsed := ParseBuffer(old(server.Fields()), text, spare == "");
            outcome == parsed.outcome && server.Fields() == parsed.req
  {
    var input := new HttpRequests.Buffer(text + spare, |text|);
    assert (text + spare)[..|text|] == text;
    outcome := server.ParseRequest(input);
  }

  /** Outcome and fields decide; the unread rest adds nothing. */
  lemma FieldsTell(req: Request, m: Method, v: Version, proxied: bool, reload: bool, url: string)
    requires Judge(url, proxied) == Accepted && Fresh(req)
    ensures var p := ParseBuffer(req, Print(RequestLines(m, v, proxied, reload, url)), true);
            p.outcome == NoRequest && p.req == Printed(req, m, v, proxied, reload, url) <==> Printable(v, proxied, url)
  {
    RoundTripIff(req, m, v, proxied, reload, url);
    if !Printable(v, proxied, url) {
      BufferKeepsClean(req, Print(RequestLines(m, v, proxied, reload, url)), true);
      PrintedIsNotClean(req, m, v, proxied, reload, url);
    }
  }

  lemma FieldsTellRoomy(req: Request, m: Method, v: Version, proxied: bool, reload: bool, url: string)
    requires Judge(url, proxied) == Accepted && Fresh(req)
    ensures var p := ParseBuffer(req, Print(RequestLines(m, v, proxied, reload, url)), false);
            p.outcome == GoodRequest && p.req == Printed(req, m, v, proxied, reload, url)
            <==> m.Get? && v > 0 && Printable(v, proxied, url)
  {
    RoomyRoundTripIff(req, m, v, proxied, reload, url);
    if Printable(v, proxied, url) {
      RoundTrip(req, m, v, proxied, reload, url);
    } else {
      BufferKeepsClean(req, Print(RequestLines(m, v, proxied, reload, url)), false);
      PrintedIsNotClean(req, m, v, proxied, reload, url);
    }
  }
}
