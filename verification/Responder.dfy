/** The HTTP responder: its reply, and the hit counters kept by the logger. */
module Responder {
  import opened Http
  import Json

  // ---------------------------------------------------------------- hit counters

  datatype Query = InsertOrIgnore | Increment

  function Hits(stats: map<string, int>, domain: string): int {
    if domain in stats then stats[domain] else 0
  }

  class Logger {
    var stats: map<string, int>
    var domainsSeen: map<string, bool>

    constructor (stats: map<string, int>, domainsSeen: map<string, bool>)
      ensures this.stats == stats && this.domainsSeen == domainsSeen
    {
      this.stats, this.domainsSeen := stats, domainsSeen;
    }

    /** The cache marks only domains that already have a row. */
    ghost predicate Sound()
      reads this
    {
      forall d :: d in domainsSeen && domainsSeen[d] ==> d in stats
    }

    /** The update alone does nothing to a domain without a row. */
    method LogDomainHit(domain: string)
      modifies this
      ensures var marked := domain in old(domainsSeen) && old(domainsSeen)[domain];
              && stats == (if marked && domain !in old(stats) then old(stats)
                           else old(stats)[domain := Hits(old(stats), domain) + 1])
              && domainsSeen == old(domainsSeen)[domain := marked]
      ensures old(Sound()) ==> Sound()
    {
      var queries: seq<Query> := [];
      if domain !in domainsSeen {
        domainsSeen := domainsSeen[domain := false];
      }
      if !domainsSeen[domain] {
        queries := queries + [InsertOrIgnore];
      }
      queries := queries + [Increment];
      assert domain in old(domainsSeen) ==> old(domainsSeen)[domain := old(domainsSeen)[domain]] == old(domainsSeen);
      ghost var start, seen := stats, domainsSeen;
      for i := 0 to |queries|
        invariant domainsSeen == seen
        invariant stats == if i == 0 then start
          else if queries[i - 1] == InsertOrIgnore then start[domain := Hits(start, domain)]
          else if |queries| == 1 && domain !in start then start
          else start[domain := Hits(start, domain) + 1]
      {
        match queries[i] {
          case InsertOrIgnore =>
            if domain !in stats {
              stats := stats[domain := 0];
            }
          case Increment =>
            if domain in stats {
              stats := stats[domain := stats[domain] + 1];
            }
        }
      }
    }
  }

  // ---------------------------------------------------------------- the connection

  /** The value of the Host header, or the empty text. */
  function HostOf(request: string): string {
    if "Host" in Parsed(request) then Parsed(request)["Host"] else ""
  }

  /** What the status line begins with. */
  function Lead(code: int): string {
    "HTTP/1.1 " + Json.Decimal(code) + " "
  }

  function StatusLine(code: int, status: string): Line {
    Plain(Lead(code) + status)
  }

  const HEADERS: seq<Line> := [
    Header("Server", "HTTPResponder"), Header("Content-Type", "text/html"), Header("Content-Length", "0")]

  /** The status line, three headers and two blank lines. */
  function Reply(code: int, status: string): seq<Line> {
    [StatusLine(code, status)] + HEADERS + [Plain(""), Plain("")]
  }

  class HTTPResponderConnection {
    const logger: Logger
    const code: int
    const status: string

    constructor (logger: Logger, code: int, status: string)
      ensures this.logger == logger && this.code == code && this.status == status
    {
      this.logger, this.code, this.status := logger, code, status;
    }

    method ProcessRequest(request: string) returns (response: string)
      modifies logger
      ensures response == Printed(Reply(code, status))
      ensures old(logger.Sound()) ==> logger.Sound() && logger.stats == Counted(old(logger.stats), HostOf(request))
    {
      RecordHit(request);
      response := BuildReply();
    }

    method RecordHit(request: string)
      modifies logger
      ensures old(logger.Sound()) ==> logger.Sound() && logger.stats == Counted(old(logger.stats), HostOf(request))
    {
      var headers := ParseHeaders(request, map[]);
      var domain := if "Host" in headers then headers["Host"] else "";
      if domain != "" {
        logger.LogDomainHit(domain);
      }
    }

    method BuildReply() returns (response: string)
      ensures response == Printed(Reply(code, status))
    {
      var reply := ["HTTP/1.1 " + Json.Decimal(code) + " " + status];
      reply := reply + ["Server: HTTPResponder"];
      reply := reply + ["Content-Type: text/html"];
      reply := reply + ["Content-Length: 0"];
      ReplyContents(code, status);
      response := JoinLines(reply, [StatusLine(code, status)] + HEADERS);
      BlankLines([StatusLine(code, status)] + HEADERS);
      assert [StatusLine(code, status)] + HEADERS + [Plain(""), Plain("")] == Reply(code, status);
      response := response + "\r\n\r\n";
    }

    /** The loop that ends every item of the reply with CR LF. */
    method JoinLines(reply: seq<string>, ghost lines: seq<Line>) returns (response: string)
      requires |reply| == |lines| && forall i :: 0 <= i < |reply| ==> reply[i] == Content(lines[i])
      ensures response == Printed(lines)
    {
      response := "";
      for i := 0 to |reply|
        invariant response == Printed(lines[..i])
      {
        PrintedAppend(lines[..i], lines[i]);
        assert lines[..i + 1] == lines[..i] + [lines[i]];
        response := response + reply[i] + "\r\n";
      }
      assert lines[..|lines|] == lines;
    }

    /** Any run of requests on this connection. */
    method ProcessAll(requests: seq<string>)
      requires logger.Sound()
      modifies logger
      ensures logger.Sound() && logger.stats == CountedAll(old(logger.stats), requests)
    {
      for i := 0 to |requests|
        invariant logger.Sound() && logger.stats == CountedAll(old(logger.stats), requests[..i])
      {
        assert requests[..i + 1][..i] == requests[..i];
        var _ := ProcessRequest(requests[i]);
      }
      assert requests[..|requests|] == requests;
    }
  }

  lemma {:induction false} PrintedAppend(lines: seq<Line>, line: Line)
    ensures Printed(lines + [line]) == Printed(lines) + Content(line) + "\r\n"
  {
    if |lines| == 0 {
      assert lines + [line] == [line] && [line][1..] == [];
      assert Printed([]) == "";
    } else {
      assert (lines + [line])[1..] == lines[1..] + [line];
      PrintedAppend(lines[1..], line);
    }
  }

  lemma ReplyContents(code: int, status: string)
    ensures Content(StatusLine(code, status)) == "HTTP/1.1 " + Json.Decimal(code) + " " + status
    ensures Content(HEADERS[0]) == "Server: HTTPResponder"
    ensures Content(HEADERS[1]) == "Content-Type: text/html"
    ensures Content(HEADERS[2]) == "Content-Length: 0"
  {}

  lemma BlankLines(lines: seq<Line>)
    ensures Printed(lines + [Plain(""), Plain("")]) == Printed(lines) + "\r\n\r\n"
  {
    PrintedAppend(lines, Plain(""));
    PrintedAppend(lines + [Plain("")], Plain(""));
    assert lines + [Plain("")] + [Plain("")] == lines + [Plain(""), Plain("")];
  }

  // ---------------------------------------------------------------- counting

  function Counted(stats: map<string, int>, domain: string): map<string, int> {
    if domain == "" then stats else stats[domain := Hits(stats, domain) + 1]
  }

  function CountedAll(stats: map<string, int>, requests: seq<string>): map<string, int> {
    if |requests| == 0 then stats
    else Counted(CountedAll(stats, requests[..|requests| - 1]), HostOf(requests[|requests| - 1]))
  }

  /** How many of the requests name the domain as their host. */
  function RequestsFor(requests: seq<string>, domain: string): nat {
    if |requests| == 0 then 0
    else RequestsFor(requests[..|requests| - 1], domain) + if HostOf(requests[|requests| - 1]) == domain then 1 else 0
  }

  /**
   * Over any run the hits of a domain grow by the number of requests for it, and only requested domains gain a row.
   * Requests without a host count for nobody.
   */
  lemma {:induction false} HitsAreRequests(stats: map<string, int>, requests: seq<string>, domain: string)
    ensures var counted := if |domain| > 0 then RequestsFor(requests, domain) else 0;
            && Hits(CountedAll(stats, requests), domain) == Hits(stats, domain) + counted
            && (domain in CountedAll(stats, requests) <==> domain in stats || counted > 0)
  {
    if |requests| > 0 {
      HitsAreRequests(stats, requests[..|requests| - 1], domain);
    }
  }

  /** The host of a printed request is the first Host header it carries. */
  lemma HostOfPrinted(lines: seq<Line>)
    requires forall i :: 0 <= i < |lines| ==> Clean(lines[i])
    ensures HostOf(Printed(lines)) == if "Host" in FirstWins(lines, map[]) then FirstWins(lines, map[])["Host"] else ""
  {
    ParsePrinted(lines);
  }

  // ---------------------------------------------------------------- the reply, read back

  lemma {:induction false} DecimalIsPlain(n: int)
    ensures ':' !in Json.Decimal(n) && '\r' !in Json.Decimal(n)
    decreases n < 0, if n < 0 then -n else n
  {
    if n < 0 {
      DecimalIsPlain(-n);
    } else if n >= 10 {
      DecimalIsPlain(n / 10);
    }
  }

  const EXPECTED: Headers := map["Server" := "HTTPResponder", "Content-Type" := "text/html", "Content-Length" := "0"]

  function InsertAll(headers: Headers): Headers {
    Insert(Insert(Insert(headers, "Server", "HTTPResponder"), "Content-Type", "text/html"), "Content-Length", "0")
  }

  lemma TailFirstWins(headers: Headers)
    ensures FirstWins(HEADERS + [Plain(""), Plain("")], headers) == InsertAll(headers)
  {
    var server, kind, length := HEADERS[0], HEADERS[1], HEADERS[2];
    var blank := Plain("");
    assert HEADERS + [blank, blank] == [server, kind, length, blank, blank];
    assert [server, kind, length, blank, blank][1..] == [kind, length, blank, blank];
    assert [kind, length, blank, blank][1..] == [length, blank, blank];
    assert [length, blank, blank][1..] == [blank, blank];
    assert [blank, blank][1..] == [blank] && [blank][1..] == [];
    var two := Insert(Insert(headers, "Server", "HTTPResponder"), "Content-Type", "text/html");
    assert FirstWins([], InsertAll(headers)) == InsertAll(headers);
    assert FirstWins([blank], InsertAll(headers)) == InsertAll(headers);
    assert FirstWins([blank, blank], InsertAll(headers)) == InsertAll(headers);
    assert FirstWins([length, blank, blank], two) == InsertAll(headers);
  }

  /** Whatever the lines of the status text parse to, the three headers come after it. */
  lemma ReplyParses(code: int, status: string)
    ensures Parsed(Printed(Reply(code, status))) ==
            InsertAll(ParseLines(Split(Lead(code) + status, '\r'), map[]))
  {
    var first := Lead(code) + status;
    var tail := HEADERS + [Plain(""), Plain("")];
    assert Reply(code, status) == [Plain(first)] + tail;
    assert ([Plain(first)] + tail)[1..] == tail;
    TailIsClean();
    CrLf(first, Printed(tail));
    SplitConcat(first, "\n" + Printed(tail));
    ParseLinesConcat(Split(first, '\r'), Split("\n" + Printed(tail), '\r'), map[]);
    ParsePrintedAfter("\n", tail, ParseLines(Split(first, '\r'), map[]));
    TailFirstWins(ParseLines(Split(first, '\r'), map[]));
  }

  lemma ServerIsClean()
    ensures Clean(HEADERS[0])
  {}

  lemma TypeIsClean()
    ensures Clean(HEADERS[1])
  {}

  lemma LengthIsClean()
    ensures Clean(HEADERS[2])
  {}

  lemma TailIsClean()
    ensures forall i :: 0 <= i < |HEADERS + [Plain(""), Plain("")]| ==> Clean((HEADERS + [Plain(""), Plain("")])[i])
  {
    ServerIsClean();
    TypeIsClean();
    LengthIsClean();
  }

  lemma {:induction false} TrimRightKeepsFirst(s: string)
    requires |s| > 0 && !IsSpace(s[0])
    ensures |TrimRight(s)| > 0 && TrimRight(s)[0] == s[0]
  {
    if IsSpace(s[|s| - 1]) {
      TrimRightKeepsFirst(s[..|s| - 1]);
    }
  }

  predicate Within(headers: Headers, limit: Headers) {
    forall n :: n in headers ==> n in limit && headers[n] == limit[n]
  }

  lemma InsertWithin(headers: Headers, name: string, value: string, limit: Headers)
    requires name in limit && limit[name] == value
    ensures Within(Insert(headers, name, value), limit) <==> Within(headers, limit)
  {
    var after := Insert(headers, name, value);
    assert forall n :: n in headers ==> n in after && after[n] == headers[n];
  }

  lemma InsertAllExpected(headers: Headers)
    ensures InsertAll(headers) == EXPECTED <==> Within(headers, EXPECTED)
  {
    var one := Insert(headers, "Server", "HTTPResponder");
    var two := Insert(one, "Content-Type", "text/html");
    InsertWithin(headers, "Server", "HTTPResponder", EXPECTED);
    InsertWithin(one, "Content-Type", "text/html", EXPECTED);
    InsertWithin(two, "Content-Length", "0", EXPECTED);
    assert forall n :: n in EXPECTED ==> n in InsertAll(headers);
  }

  /** A colon in the status text makes a header whose name begins like the status line. */
  lemma ColonIsHeader(lead: string, status: string) returns (name: string)
    requires |lead| > 0 && lead[0] == 'H' && ':' !in lead && ':' in status
    ensures name in ParseLine(lead + status, map[]) && name != "" && name[0] == 'H'
  {
    var first := lead + status;
    var i := IndexOf(first, ':');
    IndexPast(lead, ':', status);
    IndexPresent(status, ':');
    name := Trim(first[..i]);
    assert first[..i][0] == 'H';
    TrimRightKeepsFirst(first[..i]);
  }

  /** No colon on the first line of the status text, and on its other lines only what the reply says anyway. */
  predicate Harmless(lines: seq<string>) {
    |lines| > 0 && ':' !in lines[0] && Within(ParseLines(lines[1..], map[]), EXPECTED)
  }

  /** A first line that begins like a status line is read as no expected header. */
  lemma FirstLineOfReply(lead: string, lines: seq<string>)
    requires |lead| > 0 && lead[0] == 'H' && ':' !in lead && |lines| > 0
    ensures Within(ParseLines([lead + lines[0]] + lines[1..], map[]), EXPECTED) <==> Harmless(lines)
  {
    var first := ParseLine(lead + lines[0], map[]);
    assert ([lead + lines[0]] + lines[1..])[1..] == lines[1..];
    if ':' !in lines[0] {
      IndexAbsent(lead + lines[0], ':');
    } else {
      var name := ColonIsHeader(lead, lines[0]);
      ParsedNameStays(lines[1..], first, name);
      assert name !in EXPECTED;
    }
  }

  lemma OneLine(status: string)
    ensures '\r' !in status ==> (Harmless(Split(status, '\r')) <==> ':' !in status)
  {
    if '\r' !in status {
      IndexAbsent(status, '\r');
      assert Split(status, '\r') == [status] && [status][1..] == [];
    }
  }

  /** The reply is read as its three headers exactly when the status text is harmless: if it is one line, colon-free. */
  lemma ReplyReadsBack(code: int, status: string)
    ensures Parsed(Printed(Reply(code, status))) == EXPECTED <==> Harmless(Split(status, '\r'))
    ensures '\r' !in status ==> (Harmless(Split(status, '\r')) <==> ':' !in status)
  {
    var lines := Split(status, '\r');
    ReplyParses(code, status);
    LeadIsPlain(code);
    SplitLead(Lead(code), status);
    InsertAllExpected(ParseLines(Split(Lead(code) + status, '\r'), map[]));
    FirstLineOfReply(Lead(code), lines);
    OneLine(status);
  }

  lemma LeadIsPlain(code: int)
    ensures ':' !in Lead(code) && '\r' !in Lead(code) && |Lead(code)| > 0 && Lead(code)[0] == 'H'
  {
    DecimalIsPlain(code);
  }
  /** The text from a space on, without it. */
  function Behind(text: string): string {
    var i := IndexOf(text, ' ');
    if i == |text| then "" else text[i + 1..]
  }

  /** The text up to the first space. */
  function Word(text: string): string {
    text[..IndexOf(text, ' ')]
  }

  lemma WordThenRest(word: string, rest: string)
    requires ' ' !in word
    ensures Word(word + " " + rest) == word && Behind(word + " " + rest) == rest
  {
    IndexIn(word, ' ', rest);
  }

  lemma DecimalHasNoSpace(code: int)
    ensures ' ' !in Json.Decimal(code)
  {
    var text := Json.Decimal(code);
    Json.DecimalReadsBack(code);
    if code < 0 {
      assert text == [text[0]] + text[1..];
    }
  }

  /** Everything behind the status text: three headers and two blank lines. */
  const BEHIND_STATUS := "\r\n" + "Server: HTTPResponder" + "\r\n" + "Content-Type: text/html" + "\r\n" +
                         "Content-Length: 0" + "\r\n" + "\r\n\r\n"

  /**
   * The reply, read from the left as a status line (section 3.1.2 of RFC 7230): the version, the configured code as a
   * number, the configured text, and then the headers and blank lines.
   */
  lemma ReplyInFull(code: int, status: string)
    ensures var text := Printed(Reply(code, status));
            && Word(text) == "HTTP/1.1"
            && Json.ReadDecimal(Word(Behind(text))) == code
            && Behind(Behind(text)) == status + BEHIND_STATUS
  {
    PrintedReply(code, status);
    DecimalHasNoSpace(code);
    StatusLineReads(Json.Decimal(code), status, BEHIND_STATUS);
    Json.DecimalReadsBack(code);
  }

  lemma StatusLineReads(digits: string, status: string, tail: string)
    requires ' ' !in digits
    ensures var text := "HTTP/1.1 " + digits + " " + status + tail;
            Word(text) == "HTTP/1.1" && Word(Behind(text)) == digits && Behind(Behind(text)) == status + tail
  {
    var rest := digits + " " + (status + tail);
    assert "HTTP/1.1 " + digits + " " + status + tail == "HTTP/1.1" + " " + rest;
    WordThenRest("HTTP/1.1", rest);
    WordThenRest(digits, status + tail);
  }

  lemma Regroup(a: string, b: string, c: string)
    ensures a + (b + c) == a + b + c
  {}

  lemma PrintedReply(code: int, status: string)
    ensures Printed(Reply(code, status)) == "HTTP/1.1 " + Json.Decimal(code) + " " + status + BEHIND_STATUS
  {
    var line, first := StatusLine(code, status), Lead(code) + status;
    var e, s, k, l := "\r\n", "Server: HTTPResponder", "Content-Type: text/html", "Content-Length: 0";
    ReplyContents(code, status);
    FourPrinted(line, HEADERS[0], HEADERS[1], HEADERS[2]);
    assert [line] + HEADERS == [line, HEADERS[0], HEADERS[1], HEADERS[2]];
    BlankLines([line] + HEADERS);
    Regroup(first, e, s);
    Regroup(first, e + s, e);
    Regroup(first, e + s + e, k);
    Regroup(first, e + s + e + k, e);
    Regroup(first, e + s + e + k + e, l);
    Regroup(first, e + s + e + k + e + l, e);
    Regroup(first, e + s + e + k + e + l + e, "\r\n\r\n");
  }

  lemma FourPrinted(a: Line, b: Line, c: Line, d: Line)
    ensures Printed([a, b, c, d]) ==
            Content(a) + "\r\n" + Content(b) + "\r\n" + Content(c) + "\r\n" + Content(d) + "\r\n"
  {
    assert [a, b, c] + [d] == [a, b, c, d] && [a, b] + [c] == [a, b, c] && [a] + [b] == [a, b];
    PrintedAppend([a, b, c], d);
    PrintedAppend([a, b], c);
    PrintedAppend([a], b);
    PrintedAppend([], a);
    assert [] + [a] == [a] && "" + Content(a) == Content(a);
  }
}
