/**
 `build_request` of the bundled benchmark client: splitting the URL, normalising the
 protocol version, and assembling the request text in fixed C arrays.
 */
module WebBench {
  import opened Sequences
  import opened LineFraming
  import opened HttpParsing

  const MAXHOSTNAMELEN: nat := 64
  const REQUEST_SIZE: nat := 2048
  const TMP_SIZE: nat := 10
  const MAX_URL: nat := 1500

  datatype Method = Get | Head | Options | Trace

  /** 0 for HTTP/0.9, 1 for HTTP/1.0, 2 for HTTP/1.1. */
  type Version = v: int | 0 <= v <= 2

  function Name(m: Method): string {
    match m
    case Get => "GET"
    case Head => "HEAD"
    case Options => "OPTIONS"
    case Trace => "TRACE"
  }

  /** The oldest version the chosen method and flags can be sent with. */
  function Normalised(m: Method, reload: bool, proxied: bool, v: Version): (w: Version)
    ensures v <= w
    ensures m.Options? || m.Trace? ==> w == 2
    ensures m.Head? || (reload && proxied) ==> w >= 1
    ensures w > v ==> m.Options? || m.Trace? || (w == 1 && (m.Head? || (reload && proxied)))
  {
    if m.Options? || m.Trace? then 2
    else if v < 1 && (m.Head? || (reload && proxied)) then 1
    else v
  }

  // -------------------------------------------------------------- the URL

  /** strstr(url, "://"), or the length when it is not there. */
  function SchemeEnd(url: string): (k: nat)
    ensures k <= |url|
    ensures k < |url| ==> "://" <= url[k..]
  {
    if url == "" || "://" <= url then 0 else 1 + SchemeEnd(url[1..])
  }

  function Lower(c: char): char {
    if 'A' <= c <= 'Z' then ((c as int) - ('A' as int) + ('a' as int)) as char else c
  }

  /** 0 == strncasecmp("http://", url, 7) */
  predicate IsHttp(url: string) {
    && |url| >= 7
    && Lower(url[0]) == 'h' && Lower(url[1]) == 't' && Lower(url[2]) == 't' && Lower(url[3]) == 'p'
    && url[4..7] == "://"
  }

  datatype Verdict = Accepted | NotAUrl | TooLong | NotHttp | NoSlash

  function AfterScheme(url: string): string {
    if SchemeEnd(url) < |url| then url[SchemeEnd(url) + 3..] else ""
  }

  /** The checks in front of everything else; all but the first verdict end the program. */
  function Judge(url: string, proxied: bool): Verdict {
    if SchemeEnd(url) == |url| then NotAUrl
    else if |url| > MAX_URL then TooLong
    else if !proxied && !IsHttp(url) then NotHttp
    else if IndexOf(AfterScheme(url), '/') == |AfterScheme(url)| then NoSlash
    else Accepted
  }

  predicate DelimiterAt(url: string, i: nat) {
    i + 3 <= |url| && url[i] == ':' && url[i + 1] == '/' && url[i + 2] == '/'
  }

  lemma DelimiterInFront(url: string)
    ensures "://" <= url <==> DelimiterAt(url, 0)
  {
    if DelimiterAt(url, 0) {
      assert url[..3] == "://";
    }
  }

  /** The scheme ends where the first "://" is, if there is one. */
  lemma {:induction false} FirstDelimiter(url: string, k: nat)
    requires k == |url| || DelimiterAt(url, k)
    requires forall i: nat | i < k :: !DelimiterAt(url, i)
    ensures SchemeEnd(url) == k
    decreases k
  {
    DelimiterInFront(url);
    if k > 0 {
      var rest := url[1..];
      forall i: nat
        ensures DelimiterAt(rest, i) <==> DelimiterAt(url, i + 1)
      {}
      FirstDelimiter(rest, k - 1);
    }
  }

  /** A URL without "://" is refused as such. */
  lemma NotAUrlVerdict(url: string, proxied: bool)
    requires forall i: nat :: !DelimiterAt(url, i)
    ensures Judge(url, proxied) == NotAUrl
  {
    FirstDelimiter(url, |url|);
  }

  /**
   The verdict on any other URL, whose first "://" is at `k`: more than 1500 characters are too
   many; without a proxy it must begin with "http://" in any case of letters; and behind the
   scheme there must be a '/'.
   */
  lemma VerdictOf(url: string, proxied: bool, k: nat)
    requires DelimiterAt(url, k) && forall i: nat | i < k :: !DelimiterAt(url, i)
    ensures var http := |url| >= 7 && url[0] in ['h', 'H'] && url[1] in ['t', 'T'] && url[2] in ['t', 'T']
                        && url[3] in ['p', 'P'] && DelimiterAt(url, 4);
            Judge(url, proxied) ==
            if |url| > 1500 then TooLong
            else if !proxied && !http then NotHttp
            else if '/' !in url[k + 3..] then NoSlash
            else Accepted
  {
    FirstDelimiter(url, k);
    HttpPrefix(url);
    IndexFinds(url[k + 3..], '/');
  }

  lemma HttpPrefix(url: string)
    ensures IsHttp(url) <==>
              && |url| >= 7 && url[0] in ['h', 'H'] && url[1] in ['t', 'T'] && url[2] in ['t', 'T']
              && url[3] in ['p', 'P'] && DelimiterAt(url, 4)
  {
    if |url| >= 7 {
      assert url[4..7] == [url[4], url[5], url[6]];
    }
  }

  lemma IndexFinds(s: string, c: char)
    ensures IndexOf(s, c) == |s| <==> c !in s
  {
    if IndexOf(s, c) < |s| {
      assert s[IndexOf(s, c)] in s;
    }
  }

  datatype Parts = Parts(host: string, port: string, hasPort: bool, path: string)

  /** Host, port text and path behind the scheme. */
  function SplitUrl(rest: string): Parts {
    var slash, colon := IndexOf(rest, '/'), IndexOf(rest, ':');
    if colon < slash then Parts(rest[..colon], rest[colon + 1..slash], true, rest[slash..])
    else Parts(rest[..slash], "", false, rest[slash..])
  }

  /** An `http://` URL has its scheme delimiter at the fifth character. */
  lemma HttpScheme(url: string)
    requires IsHttp(url)
    ensures SchemeEnd(url) == 4 && AfterScheme(url) == url[7..]
  {
    assert url[4..] == url[1..][1..][1..][1..];
    assert "://" <= url[4..];
    assert forall c :: Lower(c) != ':' ==> c != ':';
    assert url[0] != ':' && url[1] != ':' && url[2] != ':' && url[3] != ':';
    SchemeStep(url);
    SchemeStep(url[1..]);
    SchemeStep(url[1..][1..]);
    SchemeStep(url[1..][1..][1..]);
  }

  lemma SchemeStep(url: string)
    requires url != "" && url[0] != ':'
    ensures SchemeEnd(url) == 1 + SchemeEnd(url[1..])
  {}

  function PortText(p: Parts): string {
    if p.hasPort then ":" + p.port else ""
  }

  lemma SplitPieces(rest: string)
    ensures rest == SplitUrl(rest).host + (PortText(SplitUrl(rest)) + SplitUrl(rest).path)
  {
    var slash, colon := IndexOf(rest, '/'), IndexOf(rest, ':');
    if colon < slash {
      assert [rest[colon]] == ":";
      SplitTwice(rest, colon, slash);
    } else {
      SplitOnce(rest, slash);
      EmptyConcat("", rest[slash..]);
    }
  }

  lemma SplitDelimiters(rest: string)
    ensures '/' !in SplitUrl(rest).host && ':' !in SplitUrl(rest).host && '/' !in SplitUrl(rest).port
    ensures IndexOf(rest, '/') < |rest| ==> SplitUrl(rest).path != "" && SplitUrl(rest).path[0] == '/'
  {}

  /** The split of an accepted URL is lossless, and each part is what its delimiters make it. */
  lemma SplitIsLossless(url: string)
    requires Judge(url, false) == Accepted
    ensures var p := SplitUrl(AfterScheme(url));
            && url == url[..7] + (p.host + (PortText(p) + p.path))
            && '/' !in p.host && ':' !in p.host && '/' !in p.port
            && p.path != "" && p.path[0] == '/'
  {
    HttpScheme(url);
    SplitPieces(url[7..]);
    SplitDelimiters(url[7..]);
    SplitOnce(url, 7);
  }

  /**
   The resource a direct request asks for, on the URL alone: its text from the first '/' behind
   "http://" on, and the host and the optional ":port" are what is in front of it.
   */
  lemma TargetOfUrl(url: string)
    requires Judge(url, false) == Accepted
    ensures var target, p := Target(url, false), SplitUrl(AfterScheme(url));
            && FromFirstSlash(url, target)
            && url[7..|url| - |target|] == p.host + PortText(p) && ':' !in p.host
            && (PortText(p) == "" || PortText(p)[0] == ':')
  {
    SplitIsLossless(url);
    TargetOfParts(url, SplitUrl(AfterScheme(url)));
  }

  lemma TargetOfParts(url: string, p: Parts)
    requires |url| >= 7 && url == url[..7] + (p.host + (PortText(p) + p.path))
    requires '/' !in p.host && '/' !in p.port && p.path != "" && p.path[0] == '/'
    ensures FromFirstSlash(url, p.path) && url[7..|url| - |p.path|] == p.host + PortText(p)
    ensures PortText(p) == "" || PortText(p)[0] == ':'
  {
    SplitAround(url, url[..7], p.host, PortText(p), p.path);
  }

  /** A suffix of the URL that begins with the first '/' from the eighth character on. */
  predicate FromFirstSlash(url: string, target: string) {
    && 0 < |target| <= |url| - 7 && target == url[|url| - |target|..]
    && target[0] == '/' && '/' !in url[7..|url| - |target|]
  }

  lemma SplitAround(url: string, front: string, host: string, port: string, path: string)
    requires url == front + (host + (port + path)) && |front| == 7
    requires '/' !in host && '/' !in port && path != "" && path[0] == '/'
    ensures url[7..|url| - |path|] == host + port && FromFirstSlash(url, path)
  {
    assert url[|url| - |path|..] == path;
    assert url[7..|url| - |path|] == host + port;
  }

  // ---------------------------------------------------------- the request

  function Target(url: string, proxied: bool): string {
    if proxied then url else SplitUrl(AfterScheme(url)).path
  }

  function HostOf(url: string): string {
    SplitUrl(AfterScheme(url)).host
  }

  /** The host name array stays empty when a proxy is used. */
  function HostCopied(url: string, proxied: bool): string {
    if proxied then "" else HostOf(url)
  }

  function VersionSuffix(v: Version): string {
    if v == 1 then " HTTP/1.0" else if v == 2 then " HTTP/1.1" else ""
  }

  /** The lines a request is made of. */
  datatype Line =
    | Start(m: Method, target: string, v: Version)
    | UserAgent
    | Host(name: string)
    | Pragma
    | Connection
    | Blank
  {
    function Text(): string {
      match this
      case Start(m, target, v) => Name(m) + " " + target + VersionSuffix(v)
      case UserAgent => "User-Agent: WebBench 1.5"
      case Host(name) => "Host: " + name
      case Pragma => "Pragma: no-cache"
      case Connection => "Connection: close"
      case Blank => ""
    }

    /** Characters the line's text takes at most. */
    function Room(): nat {
      match this
      case Start(_, target, _) => |target| + 17
      case Host(name) => |name| + 6
      case Blank => 0
      case _ => 24
    }

    predicate Plain() {
      (Start? ==> '\0' !in target) && (Host? ==> '\0' !in name)
    }
  }

  function Print(lines: seq<Line>): string {
    if lines == [] then "" else Terminated(lines[0].Text()) + Print(lines[1..])
  }

  lemma {:induction false} PrintSnoc(lines: seq<Line>, line: Line)
    ensures Print(lines + [line]) == Print(lines) + Terminated(line.Text())
  {
    if lines == [] {
      EmptyConcat(lines, [line]);
      assert [line][1..] == [];
    } else {
      TailOfConcat(lines, [line]);
      PrintSnoc(lines[1..], line);
      Assoc(Terminated(lines[0].Text()), Print(lines[1..]), Terminated(line.Text()));
    }
  }

  lemma {:induction false} PrintConcat(xs: seq<Line>, ys: seq<Line>)
    ensures Print(xs + ys) == Print(xs) + Print(ys)
  {
    if xs == [] {
      EmptyConcat(xs, ys);
      EmptyConcat("", Print(ys));
    } else {
      TailOfConcat(xs, ys);
      PrintConcat(xs[1..], ys);
      Assoc(Terminated(xs[0].Text()), Print(xs[1..]), Print(ys));
    }
  }

  lemma PrintOne(line: Line)
    ensures Print([line]) == line.Text() + "\r\n"
  {
    assert [line][1..] == [];
    assert Terminated(line.Text()) + "" == Terminated(line.Text());
  }

  function When(b: bool, line: Line): seq<Line> {
    if b then [line] else []
  }

  /** The whole request: which lines it has, and in which order. */
  function RequestLines(m: Method, v: Version, proxied: bool, reload: bool, url: string): seq<Line> {
    WithHeaders([Start(m, Target(url, proxied), v)], v, proxied, reload, HostCopied(url, proxied))
  }

  function WithHeaders(start: seq<Line>, v: Version, proxied: bool, reload: bool, host: string): seq<Line> {
    start
    + When(v > 0, UserAgent)
    + When(!proxied && v > 0, Host(host))
    + When(reload && proxied, Pragma)
    + When(v > 1, Connection)
    + When(v > 0, Blank)
  }

  lemma PrintWhen(b: bool, line: Line)
    ensures Print(When(b, line)) == if b then line.Text() + "\r\n" else ""
  {
    PrintOne(line);
  }

  /** The text of every request, character by character. */
  lemma RequestText(m: Method, v: Version, proxied: bool, reload: bool, url: string)
    ensures Print(RequestLines(m, v, proxied, reload, url)) ==
            (match m case Get => "GET" case Head => "HEAD" case Options => "OPTIONS" case Trace => "TRACE")
            + " " + Target(url, proxied)
            + (if v == 1 then " HTTP/1.0" else if v == 2 then " HTTP/1.1" else "")
            + "\r\n"
            + (if v > 0 then "User-Agent: WebBench 1.5" + "\r\n" else "")
            + (if !proxied && v > 0 then "Host: " + HostCopied(url, proxied) + "\r\n" else "")
            + (if reload && proxied then "Pragma: no-cache" + "\r\n" else "")
            + (if v > 1 then "Connection: close" + "\r\n" else "")
            + (if v > 0 then "" + "\r\n" else "")
  {
    var start, host := Start(m, Target(url, proxied), v), HostCopied(url, proxied);
    var a, b := When(v > 0, UserAgent), When(!proxied && v > 0, Host(host));
    var c, d, e := When(reload && proxied, Pragma), When(v > 1, Connection), When(v > 0, Blank);
    PrintOne(start);
    PrintWhen(v > 0, UserAgent);
    PrintWhen(!proxied && v > 0, Host(host));
    PrintWhen(reload && proxied, Pragma);
    PrintWhen(v > 1, Connection);
    PrintWhen(v > 0, Blank);
    PrintConcat([start], a);
    PrintConcat([start] + a, b);
    PrintConcat([start] + a + b, c);
    PrintConcat([start] + a + b + c, d);
    PrintConcat([start] + a + b + c + d, e);
  }

  lemma PlainText(line: Line)
    requires line.Plain()
    ensures '\0' !in line.Text() && |line.Text()| <= line.Room()
  {
    if line.Start? {
      assert '\0' !in Name(line.m) && |Name(line.m)| <= 7;
      assert '\0' !in VersionSuffix(line.v) && |VersionSuffix(line.v)| <= 9;
    }
  }

  // -------------------------------------------------------------- C strings

  lemma IndexUnique(s: string, c: char, k: nat)
    requires k < |s| && s[k] == c && c !in s[..k]
    ensures IndexOf(s, c) == k
  {}

  /** A fixed character array and the C string in it: everything in front of its first NUL. */
  class CString {
    const data: array<char>
    ghost var text: string

    ghost predicate Valid()
      reads this, data
    {
      && |text| == IndexOf(data[..], '\0') < data.Length
      && text == data[..|text|]
    }

    constructor (size: nat)
      requires size > 0
      ensures Valid() && fresh(data) && text == "" && data.Length == size
    {
      data := new char[size](_ => '\0');
      text := "";
      new;
      IndexUnique(data[..], '\0', 0);
    }

    method Bzero()
      requires data.Length > 0
      modifies this, data
      ensures Valid() && text == ""
      ensures forall i | 0 <= i < data.Length :: data[i] == '\0'
    {
      forall i | 0 <= i < data.Length {
        data[i] := '\0';
      }
      text := "";
      IndexUnique(data[..], '\0', 0);
    }

    function Text(): (t: string)
      requires Valid()
      reads this, data
      ensures t == text
    {
      data[..IndexOf(data[..], '\0')]
    }

    /** strcat: the destination must have room for the text and its NUL. */
    method Strcat(s: string)
      requires Valid() && '\0' !in s && |text| + |s| < data.Length
      modifies this, data
      ensures Valid() && text == old(text) + s
    {
      var end := IndexOf(data[..], '\0');
      for i := 0 to |s|
        invariant text == old(text) && data[..end + i] == text + s[..i]
      {
        data[end + i] := s[i];
      }
      data[end + |s|] := '\0';
      text := text + s;
      assert data[..][..end + |s|] == text;
      IndexUnique(data[..], '\0', end + |s|);
    }

    /** strncpy of `n` characters into a zeroed array, which leaves at least the last NUL in place. */
    method Strncpy(s: string, n: nat)
      requires n <= |s| && n < data.Length && '\0' !in s[..n]
      requires forall i | 0 <= i < data.Length :: data[i] == '\0'
      modifies this, data
      ensures Valid() && text == s[..n]
    {
      for i := 0 to n
        invariant data[..i] == s[..i]
        invariant forall j | i <= j < data.Length :: data[j] == '\0'
      {
        data[i] := s[i];
      }
      text := s[..n];
      assert data[..][..n] == text;
      IndexUnique(data[..], '\0', n);
    }
  }

  // ------------------------------------------------------------------ atoi

  function Digits(s: string, value: nat): nat {
    if s != "" && '0' <= s[0] <= '9' then Digits(s[1..], 10 * value + (s[0] as int - '0' as int))
    else value
  }

  function Atoi(s: string): int {
    var t := SkipSpaces(s);
    if t != "" && t[0] == '-' then 0 - Digits(t[1..], 0)
    else if t != "" && t[0] == '+' then Digits(t[1..], 0)
    else Digits(t, 0)
  }

  predicate IsDigits(s: string) {
    forall c | c in s :: '0' <= c <= '9'
  }

  /** The number digits denote in base ten, the last one being the units. */
  function Decimal(digits: string): nat
    requires IsDigits(digits)
    decreases |digits|
  {
    if digits == "" then 0
    else
      var n := |digits| - 1;
      assert forall c | c in digits[..n] :: c in digits;
      assert digits[n] in digits;
      10 * Decimal(digits[..n]) + (digits[n] as int - '0' as int)
  }

  /** The digits of a text before anything that is none, read from the left. */
  lemma {:induction false} DigitsAre(digits: string, done: string, rest: string)
    requires IsDigits(done + digits) && IsDigits(done) && (rest != "" ==> !('0' <= rest[0] <= '9'))
    ensures Digits(digits + rest, Decimal(done)) == Decimal(done + digits)
    decreases |digits|
  {
    if digits == "" {
      EmptyConcat(digits, rest);
      assert done + digits == done;
    } else {
      var more := done + [digits[0]];
      assert digits[0] in done + digits;
      TailOfConcat(digits, rest);
      assert done + digits == more + digits[1..];
      FrontOfSnoc(done, digits[0]);
      assert forall c | c in more :: c in done + digits;
      DigitsAre(digits[1..], more, rest);
    }
  }

  /**
   What atoi reads: white space, an optional sign, digits, and nothing of what follows them.
   No digit at all reads as zero.
   */
  lemma AtoiReads(spaces: string, sign: string, digits: string, rest: string)
    requires AllSpaces(spaces) && sign in ["", "-", "+"] && forall c | c in digits :: '0' <= c <= '9'
    requires rest != "" ==> !('0' <= rest[0] <= '9')
    requires sign == "" && digits == "" && rest != "" ==> !IsSpace(rest[0]) && rest[0] !in ['-', '+']
    ensures Atoi(spaces + (sign + (digits + rest))) == if sign == "-" then 0 - Decimal(digits) else Decimal(digits)
  {
    var number := digits + rest;
    var t := sign + number;
    EmptyConcat("", number);
    EmptyConcat("", digits);
    assert digits != "" ==> digits[0] in digits;
    assert t != "" ==> !IsSpace(t[0]);
    SkipsTo(spaces, t);
    assert sign != "" ==> t[1..] == number;
    DigitsAre(digits, "", rest);
  }

  lemma {:induction false} SkipsTo(spaces: string, t: string)
    requires AllSpaces(spaces) && (t != "" ==> !IsSpace(t[0]))
    ensures SkipSpaces(spaces + t) == t
  {
    if spaces == "" {
      EmptyConcat(spaces, t);
    } else {
      TailOfConcat(spaces, t);
      SkipsTo(spaces[1..], t);
    }
  }

  /** No usable number means port 80. */
  function PortNumber(text: string): int {
    if Atoi(text) == 0 then 80 else Atoi(text)
  }

  /** The port the benchmark connects to. */
  function PortAfter(url: string, proxied: bool, port: int): int {
    var p := SplitUrl(AfterScheme(url));
    if proxied || !p.hasPort then port else PortNumber(p.port)
  }

  /** The port is the number behind the ':', if there is one. */
  lemma PortOfText(url: string, port: int)
    ensures var text := PortText(SplitUrl(AfterScheme(url)));
            PortAfter(url, false, port) ==
            if text == "" then port else if Atoi(text[1..]) == 0 then 80 else Atoi(text[1..])
  {
    PortTextTail(SplitUrl(AfterScheme(url)));
  }

  lemma PortTextTail(p: Parts)
    ensures p.hasPort ==> PortText(p) != "" && PortText(p)[1..] == p.port
    ensures !p.hasPort ==> PortText(p) == ""
  {}

  // ----------------------------------------------------------- the program

  /** What the source assumes of its fixed arrays: the host name and the port text fit. */
  predicate PartsFit(url: string, proxied: bool) {
    Judge(url, proxied) == Accepted && !proxied ==>
      |HostOf(url)| < MAXHOSTNAMELEN && |SplitUrl(AfterScheme(url)).port| < TMP_SIZE
  }

  lemma TargetFits(url: string, proxied: bool)
    requires Judge(url, proxied) == Accepted && '\0' !in url
    ensures |HostCopied(url, proxied)| + |Target(url, proxied)| <= MAX_URL
    ensures '\0' !in Target(url, proxied) && '\0' !in HostCopied(url, proxied)
  {
    if !proxied {
      SplitIsLossless(url);
      assert forall c | c in AfterScheme(url) :: c in url;
    }
  }

  /** What the checks leave for the assembly to rely on. */
  predicate Ready(url: string, proxied: bool) {
    var host, target, rest := HostCopied(url, proxied), Target(url, proxied), AfterScheme(url);
    && '\0' !in target && '\0' !in host && |host| + |target| <= MAX_URL
    && (!proxied ==> '\0' !in rest && IndexOf(rest, '/') < |rest|)
    && (!proxied ==> |SplitUrl(rest).host| < MAXHOSTNAMELEN && |SplitUrl(rest).port| < TMP_SIZE)
  }

  lemma AcceptedIsReady(url: string, proxied: bool)
    requires Judge(url, proxied) == Accepted && '\0' !in url && PartsFit(url, proxied)
    ensures Ready(url, proxied)
  {
    TargetFits(url, proxied);
    assert forall c | c in AfterScheme(url) :: c in url;
  }

  class Client {
    var method_: Method
    var http10: Version
    var forceReload: bool
    var proxied: bool          // proxyhost != NULL
    var proxyport: int
    const host: CString
    const request: CString

    /** The two global arrays, which do not overlap. */
    ghost predicate Arrays()
    {
      && host != request && host.data != request.data
      && host.data.Length == MAXHOSTNAMELEN && request.data.Length == REQUEST_SIZE
    }

    constructor (m: Method, v: Version, reload: bool, proxied: bool)
      ensures Arrays() && fresh(host) && fresh(host.data) && fresh(request) && fresh(request.data)
      ensures method_ == m && http10 == v && forceReload == reload && this.proxied == proxied
    {
      method_, http10, forceReload, this.proxied, proxyport := m, v, reload, proxied, 80;
      host := new CString(MAXHOSTNAMELEN);
      request := new CString(REQUEST_SIZE);
    }

    method NormaliseVersion()
      modifies this`http10
      ensures http10 == Normalised(method_, forceReload, proxied, old(http10))
    {
      if forceReload && proxied && http10 < 1 {
        http10 := 1;
      }
      if method_ == Head && http10 < 1 {
        http10 := 1;
      }
      if method_ == Options && http10 < 2 {
        http10 := 2;
      }
      if method_ == Trace && http10 < 2 {
        http10 := 2;
      }
    }

    /** Copies the port text to the scratch array and converts it; no usable number means 80. */
    method ReadPort(text: string) returns (port: int)
      requires '\0' !in text && |text| < TMP_SIZE
      ensures port == PortNumber(text)
    {
      var tmp := new CString(TMP_SIZE);
      tmp.Bzero();
      tmp.Strncpy(text, |text|);
      assert text[..|text|] == text;
      port := Atoi(tmp.Text());
      if port == 0 {
        port := 80;
      }
    }

    /** Copies the host name in front of the path, and converts the port if there is one. */
    method CopyParts(rest: string)
      requires '\0' !in rest && IndexOf(rest, '/') < |rest|
      requires |SplitUrl(rest).host| < host.data.Length && |SplitUrl(rest).port| < TMP_SIZE
      requires forall i | 0 <= i < host.data.Length :: host.data[i] == '\0'
      modifies this`proxyport, host, host.data
      ensures host.Valid() && host.text == SplitUrl(rest).host
      ensures proxyport == if SplitUrl(rest).hasPort then PortNumber(SplitUrl(rest).port) else old(proxyport)
    {
      var slash, colon := IndexOf(rest, '/'), IndexOf(rest, ':');
      if colon < |rest| && colon < slash {
        host.Strncpy(rest, colon);
        proxyport := ReadPort(rest[colon + 1..slash]);
      } else {
        host.Strncpy(rest, slash);
      }
    }

    /** Without a proxy, the host and port come out of the URL; with one, both stay as they are. */
    method CopyHost(url: string)
      requires Ready(url, proxied)
      requires host.Valid() && host.text == "" && host.data.Length == MAXHOSTNAMELEN
      requires forall i | 0 <= i < host.data.Length :: host.data[i] == '\0'
      modifies this`proxyport, host, host.data
      ensures host.Valid() && host.text == HostCopied(url, proxied)
      ensures proxyport == PortAfter(url, proxied, old(proxyport))
    {
      if !proxied {
        CopyParts(AfterScheme(url));
      }
    }

    /** The request array holds exactly these lines, each ended by CRLF. */
    ghost predicate Holds(lines: seq<Line>)
      reads request, request.data
    {
      request.Valid() && request.text == Print(lines)
    }

    /** Appends a whole header line to the request when `b` asks for it. */
    method AddLine(b: bool, line: Line, ghost lines: seq<Line>, ghost room: nat) returns (ghost longer: seq<Line>)
      requires Holds(lines) && line.Plain()
      requires |request.text| + line.Room() + 2 + room < request.data.Length
      modifies request, request.data
      ensures longer == lines + When(b, line)
      ensures Holds(longer) && |request.text| + room < request.data.Length
    {
      if b {
        longer := lines + [line];
        PlainText(line);
        PrintSnoc(lines, line);
        Assoc(request.text, line.Text(), "\r\n");
        request.Strcat(line.Text());
        request.Strcat("\r\n");
      } else {
        longer := lines;
        assert lines + When(b, line) == lines;
      }
    }

    /** The rest of the first line: target and version. */
    method AddTarget(target: string) returns (ghost lines: seq<Line>)
      requires request.Valid() && request.text == Name(method_) + " "
      requires '\0' !in target && |target| <= MAX_URL && request.data.Length == REQUEST_SIZE
      modifies request, request.data
      ensures lines == [Start(method_, target, http10)]
      ensures Holds(lines) && |request.text| <= |target| + 19
    {
      request.Strcat(target);
      request.Strcat(VersionSuffix(http10));
      request.Strcat("\r\n");
      lines := [Start(method_, target, http10)];
      EmptyConcat([], lines);
      PrintSnoc([], Start(method_, target, http10));
    }

    /** The header lines that the version and the flags call for. */
    method AddHeaders(hostName: string, ghost start: seq<Line>) returns (ghost lines: seq<Line>)
      requires Holds(start)
      requires '\0' !in hostName && |request.text| + |hostName| + 200 < request.data.Length
      modifies request, request.data
      ensures lines == WithHeaders(start, http10, proxied, forceReload, hostName)
      ensures Holds(lines)
    {
      lines := AddLine(http10 > 0, UserAgent, start, |hostName| + 100);
      lines := AddLine(!proxied && http10 > 0, Host(hostName), lines, 90);
      lines := AddLine(forceReload && proxied, Pragma, lines, 60);
      lines := AddLine(http10 > 1, Connection, lines, 30);
      lines := AddLine(http10 > 0, Blank, lines, 0);
    }

    /** Everything behind the method: the target, the version and the header lines. */
    method AddLines(target: string, hostName: string)
      requires request.Valid() && request.text == Name(method_) + " " && request.data.Length == REQUEST_SIZE
      requires '\0' !in target && '\0' !in hostName && |hostName| + |target| <= MAX_URL
      modifies request, request.data
      ensures Holds(WithHeaders([Start(method_, target, http10)], http10, proxied, forceReload, hostName))
    {
      ghost var start := AddTarget(target);
      ghost var lines := AddHeaders(hostName, start);
    }

    /** Both arrays cleared, and the method in front of the request. */
    ghost predicate Started()
      reads this, host, host.data, request, request.data
    {
      && host.Valid() && host.text == "" && (forall i | 0 <= i < host.data.Length :: host.data[i] == '\0')
      && request.Valid() && request.text == Name(method_) + " "
    }

    /** The whole request is there with its terminator, and the host and the port to connect to are known. */
    ghost predicate Built(url: string, port: int)
      reads this, host, host.data, request, request.data
    {
      && Holds(RequestLines(method_, http10, proxied, forceReload, url))
      && |request.text| + 1 <= REQUEST_SIZE
      && host.Valid() && host.text == HostCopied(url, proxied)
      && proxyport == PortAfter(url, proxied, port)
    }

    /** Clears both arrays, fixes the version and writes the method. */
    method StartRequest()
      requires Arrays()
      modifies this`http10, host, host.data, request, request.data
      ensures http10 == Normalised(method_, forceReload, proxied, old(http10))
      ensures Started()
    {
      host.Bzero();
      request.Bzero();
      NormaliseVersion();
      request.Strcat(Name(method_));
      request.Strcat(" ");
    }

    /** Everything behind the checks. */
    method Assemble(url: string)
      requires Arrays() && Started() && Ready(url, proxied)
      modifies this`proxyport, host, host.data, request, request.data
      ensures Built(url, old(proxyport))
    {
      CopyHost(url);
      AddLines(Target(url, proxied), host.Text());
    }

    /** The text of the request, and that it fits with its terminator. */
    ghost predicate Spells(target: string)
      reads this, host, host.data, request, request.data
    {
      && |request.text| + 1 <= 2048
      && request.text ==
           (match method_ case Get => "GET" case Head => "HEAD" case Options => "OPTIONS" case Trace => "TRACE")
           + " " + target
           + (if http10 == 1 then " HTTP/1.0" else if http10 == 2 then " HTTP/1.1" else "")
           + "\r\n"
           + (if http10 > 0 then "User-Agent: WebBench 1.5" + "\r\n" else "")
           + (if !proxied && http10 > 0 then "Host: " + host.text + "\r\n" else "")
           + (if forceReload && proxied then "Pragma: no-cache" + "\r\n" else "")
           + (if http10 > 1 then "Connection: close" + "\r\n" else "")
           + (if http10 > 0 then "" + "\r\n" else "")
    }

    /** Which resource and which server the URL means. */
    ghost predicate Locates(url: string, target: string, port: string, oldPort: int)
      reads this, host
    {
      if proxied then target == url && host.text == "" && proxyport == oldPort
      else
        && FromFirstSlash(url, target) && url[7..|url| - |target|] == host.text + port
        && ':' !in host.text && (port == "" || port[0] == ':')
        && proxyport == if port == "" then oldPort else if Atoi(port[1..]) == 0 then 80 else Atoi(port[1..])
    }

    lemma BuiltSpells(url: string, oldPort: int)
      requires Built(url, oldPort)
      ensures Spells(Target(url, proxied))
    {
      RequestText(method_, http10, proxied, forceReload, url);
    }

    lemma BuiltLocates(url: string, oldPort: int) returns (port: string)
      requires Judge(url, proxied) == Accepted
      requires host.text == HostCopied(url, proxied) && proxyport == PortAfter(url, proxied, oldPort)
      ensures Locates(url, Target(url, proxied), port, oldPort)
    {
      port := "";
      if !proxied {
        port := PortText(SplitUrl(AfterScheme(url)));
        TargetOfUrl(url);
        PortOfText(url, oldPort);
      }
    }

    /** What every request `BuildRequest` has built says, on the URL and the arrays alone. */
    lemma BuiltAsks(url: string, oldPort: int) returns (target: string, port: string)
      requires Judge(url, proxied) == Accepted && Built(url, oldPort)
      ensures Spells(target) && Locates(url, target, port, oldPort)
    {
      target := Target(url, proxied);
      BuiltSpells(url, oldPort);
      port := BuiltLocates(url, oldPort);
    }

    /**
     Splits the URL and assembles the request; a verdict other than `Accepted` ends the
     program. Every copy stays inside its array, terminator included. The source needs the
     host name and the port text to fit their arrays. What is built asks for what the URL
     says, by `BuiltAsks`.
     */
    method BuildRequest(url: string) returns (verdict: Verdict)
      requires Arrays() && '\0' !in url
      requires Judge(url, proxied) == Accepted && !proxied ==>
                 |HostOf(url)| < 64 && |SplitUrl(AfterScheme(url)).port| < 10
      modifies this`http10, this`proxyport, host, host.data, request, request.data
      ensures verdict == Judge(url, proxied)
      ensures http10 == Normalised(method_, forceReload, proxied, old(http10))
      ensures verdict == Accepted ==> Built(url, old(proxyport))
      ensures verdict != Accepted ==> proxyport == old(proxyport) && Started()
    {
      StartRequest();
      verdict := Judge(url, proxied);
      if verdict == Accepted {
        AcceptedIsReady(url, proxied);
        Assemble(url);
      }
    }
  }
}
