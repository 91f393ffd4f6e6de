/** Header parsing, and its inverse: printing header lines the way the responder does. */
module Http {

  type Headers = map<string, string>

  /** std::string::find for one character; the length when it does not occur. */
  function IndexOf(s: string, c: char): (i: nat)
    ensures i <= |s| && c !in s[..i] && (i < |s| ==> s[i] == c)
  {
    if |s| == 0 || s[0] == c then 0 else 1 + IndexOf(s[1..], c)
  }

  /** boost::split on one character: empty pieces are kept. */
  function Split(s: string, c: char): seq<string>
    decreases |s|
  {
    var i := IndexOf(s, c);
    if i == |s| then [s] else [s[..i]] + Split(s[i + 1..], c)
  }

  /** std::isspace in the classic locale. */
  predicate IsSpace(c: char) {
    c == ' ' || 9 <= c as int <= 13
  }

  function TrimLeft(s: string): string {
    if |s| > 0 && IsSpace(s[0]) then TrimLeft(s[1..]) else s
  }

  function TrimRight(s: string): string {
    if |s| > 0 && IsSpace(s[|s| - 1]) then TrimRight(s[..|s| - 1]) else s
  }

  function Trim(s: string): string {
    TrimRight(TrimLeft(s))
  }

  /** unordered_map::insert: the first value of a name stays. */
  function Insert(headers: Headers, name: string, value: string): Headers {
    if name in headers then headers else headers[name := value]
  }

  function ParseLine(line: string, headers: Headers): Headers {
    var i := IndexOf(line, ':');
    if i == |line| then headers else Insert(headers, Trim(line[..i]), Trim(line[i + 1..]))
  }

  function ParseLines(lines: seq<string>, headers: Headers): Headers {
    if |lines| == 0 then headers else ParseLines(lines[1..], ParseLine(lines[0], headers))
  }

  function Parsed(raw: string): Headers {
    ParseLines(Split(raw, '\r'), map[])
  }

  method ParseHeaders(raw: string, headers: Headers) returns (result: Headers)
    ensures result == ParseLines(Split(raw, '\r'), headers)
  {
    result := headers;
    var lines := Split(raw, '\r');
    for i := 0 to |lines|
      invariant ParseLines(lines[i..], result) == ParseLines(lines, headers)
    {
      var line := lines[i];
      var idx := IndexOf(line, ':');
      if idx < |line| {
        result := Insert(result, Trim(line[..idx]), Trim(line[idx + 1..]));
      }
      assert lines[i..][0] == line && lines[i..][1..] == lines[i + 1..];
    }
  }

  // ---------------------------------------------------------------- printing

  /** A header field, or a line that is none, such as a status line or a blank one. */
  datatype Line = Header(name: string, value: string) | Plain(text: string)

  function Content(line: Line): string {
    match line
    case Header(name, value) => name + ": " + value
    case Plain(text) => text
  }

  function Printed(lines: seq<Line>): string {
    if |lines| == 0 then "" else Content(lines[0]) + "\r\n" + Printed(lines[1..])
  }

  predicate Trimmed(s: string) {
    |s| > 0 ==> !IsSpace(s[0]) && !IsSpace(s[|s| - 1])
  }

  predicate Clean(line: Line) {
    match line
    case Header(name, value) => Trimmed(name) && Trimmed(value) && '\r' !in name && '\r' !in value && ':' !in name
    case Plain(text) => '\r' !in text && ':' !in text
  }

  /** The reference: of several headers of one name the first counts, and other lines do not. */
  function FirstWins(lines: seq<Line>, headers: Headers): Headers {
    if |lines| == 0 then headers
    else if lines[0].Header? && lines[0].name !in headers
    then FirstWins(lines[1..], headers[lines[0].name := lines[0].value])
    else FirstWins(lines[1..], headers)
  }

  // ---------------------------------------------------------------- parsing undoes printing

  lemma {:induction false} IndexIn(a: string, c: char, b: string)
    requires c !in a
    ensures IndexOf(a + [c] + b, c) == |a|
  {
    if |a| > 0 {
      assert a[0] in a && (a + [c] + b)[0] == a[0];
      assert (a + [c] + b)[1..] == a[1..] + [c] + b;
      IndexIn(a[1..], c, b);
    }
  }

  lemma {:induction false} IndexPast(a: string, c: char, b: string)
    requires c !in a
    ensures IndexOf(a + b, c) == |a| + IndexOf(b, c)
  {
    if |a| == 0 {
      assert a + b == b;
    } else {
      assert a[0] in a && (a + b)[0] == a[0];
      assert (a + b)[1..] == a[1..] + b;
      IndexPast(a[1..], c, b);
    }
  }

  lemma {:induction false} IndexPresent(s: string, c: char)
    ensures IndexOf(s, c) < |s| <==> c in s
  {
    if |s| > 0 && s[0] != c {
      IndexPresent(s[1..], c);
    }
  }

  lemma {:induction false} IndexAbsent(s: string, c: char)
    requires c !in s
    ensures IndexOf(s, c) == |s|
  {
    if |s| > 0 {
      assert s[0] in s;
      IndexAbsent(s[1..], c);
    }
  }

  predicate Blank(s: string) {
    forall i :: 0 <= i < |s| ==> IsSpace(s[i])
  }

  lemma {:induction false} TrimBlankLead(lead: string, s: string)
    requires Blank(lead) && Trimmed(s)
    ensures Trim(lead + s) == s
  {
    if |lead| == 0 {
      assert lead + s == s;
    } else {
      assert (lead + s)[1..] == lead[1..] + s;
      TrimBlankLead(lead[1..], s);
    }
  }

  /** One printed header, after a blank lead, parses to itself. */
  lemma HeaderLine(lead: string, name: string, value: string, headers: Headers)
    requires Blank(lead) && ':' !in lead && Clean(Header(name, value))
    ensures ParseLine(lead + Content(Header(name, value)), headers) == Insert(headers, name, value)
  {
    var line := lead + Content(Header(name, value));
    assert line == (lead + name) + [':'] + (" " + value);
    IndexIn(lead + name, ':', " " + value);
    assert line[..|lead + name|] == lead + name && line[|lead + name| + 1..] == " " + value;
    TrimBlankLead(lead, name);
    TrimBlankLead(" ", value);
  }

  lemma {:induction false} TrimRightBlank(s: string, trail: string)
    requires Trimmed(s) && Blank(trail)
    ensures TrimRight(s + trail) == s
  {
    if |trail| == 0 {
      assert s + trail == s;
    } else {
      assert (s + trail)[..|s + trail| - 1] == s + trail[..|trail| - 1];
      TrimRightBlank(s, trail[..|trail| - 1]);
    }
  }

  lemma {:induction false} TrimLeftBlank(lead: string, s: string)
    requires Blank(lead) && |s| > 0 && !IsSpace(s[0])
    ensures TrimLeft(lead + s) == s
  {
    if |lead| == 0 {
      assert lead + s == s;
    } else {
      assert (lead + s)[1..] == lead[1..] + s;
      TrimLeftBlank(lead[1..], s);
    }
  }

  lemma {:induction false} TrimAllBlank(s: string)
    requires Blank(s)
    ensures TrimLeft(s) == ""
  {
    if |s| > 0 {
      TrimAllBlank(s[1..]);
    }
  }

  /** Blanks on either side go, and nothing else does. */
  lemma TrimBlanks(lead: string, s: string, trail: string)
    requires Blank(lead) && Blank(trail) && Trimmed(s)
    ensures Trim(lead + s + trail) == s
  {
    if |s| == 0 {
      assert lead + s + trail == lead + trail;
      TrimAllBlank(lead + trail);
    } else {
      assert lead + s + trail == lead + (s + trail);
      TrimLeftBlank(lead, s + trail);
      TrimRightBlank(s, trail);
    }
  }

  /** A header line parses to its name and value, however many blanks are around each of them. */
  lemma PaddedHeaderParses(a: string, name: string, b: string, c: string, value: string, d: string, headers: Headers)
    requires Blank(a) && Blank(b) && Blank(c) && Blank(d) && Trimmed(name) && Trimmed(value) && ':' !in name
    ensures ParseLine(a + name + b + ":" + (c + value + d), headers) == Insert(headers, name, value)
  {
    var line := (a + name + b) + [':'] + (c + value + d);
    assert ':' !in a + name + b;
    IndexIn(a + name + b, ':', c + value + d);
    assert line[..|a + name + b|] == a + name + b && line[|a + name + b| + 1..] == c + value + d;
    TrimBlanks(a, name, b);
    TrimBlanks(c, value, d);
  }

  lemma SplitFirst(first: string, rest: string)
    requires '\r' !in first
    ensures Split(first + "\r" + rest, '\r') == [first] + Split(rest, '\r')
  {
    IndexIn(first, '\r', rest);
    assert (first + "\r" + rest)[..|first|] == first;
    assert (first + "\r" + rest)[|first| + 1..] == rest;
  }

  /** Lines end at every carriage return, wherever a text is cut. */
  lemma {:induction false} SplitConcat(a: string, b: string)
    ensures Split(a + "\r" + b, '\r') == Split(a, '\r') + Split(b, '\r')
    decreases |a|
  {
    IndexPresent(a, '\r');
    var i := IndexOf(a, '\r');
    if i == |a| {
      SplitFirst(a, b);
    } else {
      var rest := a[i + 1..];
      assert a == a[..i] + "\r" + rest;
      assert a + "\r" + b == a[..i] + "\r" + (rest + "\r" + b);
      SplitFirst(a[..i], rest + "\r" + b);
      SplitConcat(rest, b);
      assert [a[..i]] + (Split(rest, '\r') + Split(b, '\r')) == Split(a, '\r') + Split(b, '\r');
    }
  }

  /** A text without one in front belongs to the first line. */
  lemma SplitLead(lead: string, s: string)
    requires '\r' !in lead
    ensures var lines := Split(s, '\r');
            |lines| > 0 && Split(lead + s, '\r') == [lead + lines[0]] + lines[1..]
  {
    IndexPresent(s, '\r');
    if '\r' !in s {
      IndexAbsent(lead + s, '\r');
    } else {
      var i := IndexOf(s, '\r');
      var first, rest := s[..i], s[i + 1..];
      assert s == first + "\r" + rest;
      SplitFirst(first, rest);
      assert lead + s == (lead + first) + "\r" + rest;
      SplitFirst(lead + first, rest);
      assert ([first] + Split(rest, '\r'))[1..] == Split(rest, '\r');
    }
  }

  lemma {:induction false} ParseLinesConcat(a: seq<string>, b: seq<string>, headers: Headers)
    ensures ParseLines(a + b, headers) == ParseLines(b, ParseLines(a, headers))
  {
    if |a| == 0 {
      assert a + b == b;
    } else {
      assert (a + b)[1..] == a[1..] + b;
      ParseLinesConcat(a[1..], b, ParseLine(a[0], headers));
    }
  }

  lemma {:induction false} ParsedNameStays(lines: seq<string>, headers: Headers, name: string)
    requires name in headers
    ensures name in ParseLines(lines, headers)
  {
    if |lines| > 0 {
      ParsedNameStays(lines[1..], ParseLine(lines[0], headers), name);
    }
  }

  lemma CrLf(first: string, rest: string)
    ensures first + "\r\n" + rest == first + "\r" + ("\n" + rest)
  {
    assert "\r\n" == "\r" + "\n";
  }

  lemma CleanContent(line: Line)
    requires Clean(line)
    ensures '\r' !in Content(line)
  {}

  lemma {:induction false} ParsePrintedAfter(lead: string, lines: seq<Line>, headers: Headers)
    requires Blank(lead) && '\r' !in lead && ':' !in lead
    requires forall i :: 0 <= i < |lines| ==> Clean(lines[i])
    ensures ParseLines(Split(lead + Printed(lines), '\r'), headers) == FirstWins(lines, headers)
    decreases |lines|
  {
    if |lines| == 0 {
      assert lead + Printed(lines) == lead;
      IndexAbsent(lead, '\r');
      IndexAbsent(lead, ':');
      assert ParseLines([lead], headers) == ParseLines([], ParseLine(lead, headers));
    } else {
      var line := lines[0];
      var first, rest := lead + Content(line), "\n" + Printed(lines[1..]);
      CleanContent(line);
      assert lead + Printed(lines) == first + "\r\n" + Printed(lines[1..]);
      CrLf(first, Printed(lines[1..]));
      SplitFirst(first, rest);
      if line.Header? {
        HeaderLine(lead, line.name, line.value, headers);
      } else {
        IndexAbsent(first, ':');
      }
      assert ([first] + Split(rest, '\r'))[1..] == Split(rest, '\r');
      ParsePrintedAfter("\n", lines[1..], ParseLine(first, headers));
    }
  }

  /** Parsing what was printed gives exactly the first value of every header, whatever other lines are in between. */
  lemma ParsePrinted(lines: seq<Line>)
    requires forall i :: 0 <= i < |lines| ==> Clean(lines[i])
    ensures Parsed(Printed(lines)) == FirstWins(lines, map[])
  {
    assert "" + Printed(lines) == Printed(lines);
    ParsePrintedAfter("", lines, map[]);
  }
}
