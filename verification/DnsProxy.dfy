/** The two proxy configuration writers, and the one relation both files denote. */
module DnsProxy {
  import opened Common
  import opened Tables
  import opened Queries
  import opened Managers
  import opened Http
  import Blocklist

  /** The network settings: which families are written, and the address each name resolves to. */
  datatype Network = Network(noIp4: bool, noIp6: bool, ip4: string, ip6: string)

  datatype Family = IPv4 | IPv6

  /** One answer of the proxy. */
  datatype Record = Record(domain: string, family: Family, address: string)

  function RecordsOf(net: Network, domain: string): seq<Record> {
    (if net.noIp4 then [] else [Record(domain, IPv4, net.ip4)]) +
    (if net.noIp6 then [] else [Record(domain, IPv6, net.ip6)])
  }

  /** Each name in turn, with every enabled family. */
  function Records(net: Network, names: seq<string>): seq<Record> {
    if |names| == 0 then [] else Records(net, names[..|names| - 1]) + RecordsOf(net, names[|names| - 1])
  }

  function NamesIn(domains: seq<Domain>): seq<string> {
    seq(|domains|, i requires 0 <= i < |domains| => domains[i].name)
  }

  // ---------------------------------------------------------------- the writers

  const UNBOUND_PREFIX := "    local-data: \""
  const DNSMASQ_PREFIX := "address=/."

  function TypeName(family: Family): string {
    if family == IPv4 then "A" else "AAAA"
  }

  /** The four fields of a resource record. */
  function Fields(r: Record): string {
    r.domain + " IN " + (TypeName(r.family) + " " + r.address)
  }

  function UnboundLine(r: Record): string {
    UNBOUND_PREFIX + Fields(r) + "\""
  }

  function DnsmasqLine(r: Record): string {
    DNSMASQ_PREFIX + r.domain + "/" + r.address
  }

  /** One line for each record. */
  function Text(line: Record -> string, records: seq<Record>): string {
    if |records| == 0 then "" else Text(line, records[..|records| - 1]) + line(records[|records| - 1]) + "\n"
  }

  class OutputStream {
    var text: string

    constructor ()
      ensures text == ""
    {
      text := "";
    }
  }

  /** The names written: those added to the proxy itself, then every row of get(0). */
  ghost function Written(domains: seq<string>, db: Database): seq<string>
    reads db
  {
    domains + NamesIn(OrderByName(Join(db.lists, db.rows, AnyActive)))
  }

  class Unbound {
    const net: Network
    const manager: DomainManager
    var domains: seq<string>

    constructor (net: Network, manager: DomainManager, domains: seq<string>)
      ensures this.net == net && this.manager == manager && this.domains == domains
    {
      this.net, this.manager, this.domains := net, manager, domains;
    }

    method SaveDomain(fh: OutputStream, family: Family, domain: string, address: string)
      modifies fh
      ensures fh.text == old(fh.text) + (UnboundLine(Record(domain, family, address)) + "\n")
    {
      var record := domain + " IN " + ((if family == IPv4 then "A" else "AAAA") + " " + address);
      fh.text := fh.text + ("    local-data: \"" + record + "\"" + "\n");
    }

    method SaveFamilies(fh: OutputStream, domain: string)
      modifies fh
      ensures fh.text == old(fh.text) + Text(UnboundLine, RecordsOf(net, domain))
    {
      ghost var start := fh.text;
      TextOfFamilies(UnboundLine, net, domain);
      if !net.noIp4 {
        SaveDomain(fh, IPv4, domain, net.ip4);
      }
      if !net.noIp6 {
        SaveDomain(fh, IPv6, domain, net.ip6);
      }
      Assoc(start, UnboundLine(Record(domain, IPv4, net.ip4)) + "\n",
            UnboundLine(Record(domain, IPv6, net.ip6)) + "\n");
    }

    method SaveNames(ofh: OutputStream, names: seq<string>)
      modifies ofh
      ensures ofh.text == old(ofh.text) + Text(UnboundLine, Records(net, names))
    {
      ghost var start := ofh.text;
      Assoc(start, "", "");
      for i := 0 to |names|
        invariant ofh.text == start + Text(UnboundLine, Records(net, names[..i]))
      {
        TextStep(UnboundLine, net, names, i);
        Assoc(start, Text(UnboundLine, Records(net, names[..i])), Text(UnboundLine, RecordsOf(net, names[i])));
        SaveFamilies(ofh, names[i]);
      }
      assert names[..|names|] == names;
    }

    method GenerateDomainsConfig(ofh: OutputStream)
      requires manager.db.Valid()
      modifies ofh
      ensures ofh.text == old(ofh.text) + Text(UnboundLine, Records(net, Written(domains, manager.db)))
    {
      ghost var start := ofh.text;
      SaveNames(ofh, domains);
      var stored := manager.Get(0);
      RecordsConcat(UnboundLine, net, domains, NamesIn(stored), start);
      SaveNames(ofh, NamesIn(stored));
    }
  }

  class DNSMasq {
    const net: Network
    const manager: DomainManager
    var domains: seq<string>

    constructor (net: Network, manager: DomainManager, domains: seq<string>)
      ensures this.net == net && this.manager == manager && this.domains == domains
    {
      this.net, this.manager, this.domains := net, manager, domains;
    }

    method SaveDomain(fh: OutputStream, domain: string, address: string)
      modifies fh
      ensures forall family :: fh.text == old(fh.text) + (DnsmasqLine(Record(domain, family, address)) + "\n")
    {
      fh.text := fh.text + ("address=/." + domain + "/" + address + "\n");
    }

    method SaveFamilies(fh: OutputStream, domain: string)
      modifies fh
      ensures fh.text == old(fh.text) + Text(DnsmasqLine, RecordsOf(net, domain))
    {
      ghost var start := fh.text;
      TextOfFamilies(DnsmasqLine, net, domain);
      if !net.noIp4 {
        SaveDomain(fh, domain, net.ip4);
      }
      if !net.noIp6 {
        SaveDomain(fh, domain, net.ip6);
      }
      Assoc(start, DnsmasqLine(Record(domain, IPv4, net.ip4)) + "\n",
            DnsmasqLine(Record(domain, IPv6, net.ip6)) + "\n");
    }

    method SaveNames(ofh: OutputStream, names: seq<string>)
      modifies ofh
      ensures ofh.text == old(ofh.text) + Text(DnsmasqLine, Records(net, names))
    {
      ghost var start := ofh.text;
      Assoc(start, "", "");
      for i := 0 to |names|
        invariant ofh.text == start + Text(DnsmasqLine, Records(net, names[..i]))
      {
        TextStep(DnsmasqLine, net, names, i);
        Assoc(start, Text(DnsmasqLine, Records(net, names[..i])), Text(DnsmasqLine, RecordsOf(net, names[i])));
        SaveFamilies(ofh, names[i]);
      }
      assert names[..|names|] == names;
    }

    method GenerateDomainsConfig(ofh: OutputStream)
      requires manager.db.Valid()
      modifies ofh
      ensures ofh.text == old(ofh.text) + Text(DnsmasqLine, Records(net, Written(domains, manager.db)))
    {
      ghost var start := ofh.text;
      SaveNames(ofh, domains);
      var stored := manager.Get(0);
      RecordsConcat(DnsmasqLine, net, domains, NamesIn(stored), start);
      SaveNames(ofh, NamesIn(stored));
    }
  }

  lemma Assoc(a: string, b: string, c: string)
    ensures a + b + c == a + (b + c)
    ensures a + "" == a && "" + c == c
  {}

  lemma TextOfFamilies(line: Record -> string, net: Network, domain: string)
    ensures Text(line, RecordsOf(net, domain)) ==
            (if net.noIp4 then "" else line(Record(domain, IPv4, net.ip4)) + "\n") +
            (if net.noIp6 then "" else line(Record(domain, IPv6, net.ip6)) + "\n")
  {
    var four, six := Record(domain, IPv4, net.ip4), Record(domain, IPv6, net.ip6);
    TextOfOne(line, four);
    TextOfOne(line, six);
    TextConcat(line, if net.noIp4 then [] else [four], if net.noIp6 then [] else [six]);
  }

  lemma TextOfOne(line: Record -> string, r: Record)
    ensures Text(line, [r]) == line(r) + "\n" && Text(line, []) == ""
  {
    assert [r][..0] == [];
    assert Text(line, [r]) == "" + line(r) + "\n";
  }

  lemma {:induction false} TextConcat(line: Record -> string, a: seq<Record>, b: seq<Record>)
    ensures Text(line, a + b) == Text(line, a) + Text(line, b)
  {
    if |b| == 0 {
      assert a + b == a;
    } else {
      assert (a + b)[..|a + b| - 1] == a + b[..|b| - 1];
      TextConcat(line, a, b[..|b| - 1]);
    }
  }

  lemma {:induction false} RecordsAppend(net: Network, a: seq<string>, b: seq<string>)
    ensures Records(net, a + b) == Records(net, a) + Records(net, b)
  {
    if |b| == 0 {
      assert a + b == a;
    } else {
      assert (a + b)[..|a + b| - 1] == a + b[..|b| - 1];
      RecordsAppend(net, a, b[..|b| - 1]);
    }
  }

  lemma RecordsConcat(line: Record -> string, net: Network, a: seq<string>, b: seq<string>, start: string)
    ensures start + Text(line, Records(net, a)) + Text(line, Records(net, b)) == start + Text(line, Records(net, a + b))
  {
    RecordsAppend(net, a, b);
    TextConcat(line, Records(net, a), Records(net, b));
    Assoc(start, Text(line, Records(net, a)), Text(line, Records(net, b)));
  }

  lemma TextStep(line: Record -> string, net: Network, names: seq<string>, i: nat)
    requires i < |names|
    ensures Text(line, Records(net, names[..i + 1])) ==
            Text(line, Records(net, names[..i])) + Text(line, RecordsOf(net, names[i]))
  {
    assert names[..i + 1][..i] == names[..i];
    TextConcat(line, Records(net, names[..i]), RecordsOf(net, names[i]));
  }

  // ---------------------------------------------------------------- reading the files back

  function FamilyOf(typeName: string): Option<Family> {
    if typeName == "A" then Some(IPv4) else if typeName == "AAAA" then Some(IPv6) else None
  }

  /** A local-data line: a quoted resource record of four fields. */
  function ReadUnboundLine(line: string): Option<Record> {
    if !(UNBOUND_PREFIX <= line) then None
    else
      var body := line[|UNBOUND_PREFIX|..];
      var quote := IndexOf(body, '\"');
      var fields := Split(body[..quote], ' ');
      if quote + 1 == |body| && |fields| == 4 && fields[1] == "IN" && FamilyOf(fields[2]).Some?
      then Some(Record(fields[0], FamilyOf(fields[2]).value, fields[3]))
      else None
  }

  /** An address line: the domain up to the next slash, then the address. */
  function ReadDnsmasqLine(line: string): Option<(string, string)> {
    if !(DNSMASQ_PREFIX <= line) then None
    else
      var body := line[|DNSMASQ_PREFIX|..];
      var slash := IndexOf(body, '/');
      if slash == |body| then None else Some((body[..slash], body[slash + 1..]))
  }

  /** The lines that can be read, in order. */
  function ReadLines<T>(read: string -> Option<T>, lines: seq<string>): seq<T> {
    if |lines| == 0 then []
    else
      var first := read(lines[0]);
      (if first.Some? then [first.value] else []) + ReadLines(read, lines[1..])
  }

  function ReadUnbound(text: string): seq<Record> {
    ReadLines(ReadUnboundLine, Split(text, '\n'))
  }

  function ReadDnsmasq(text: string): seq<(string, string)> {
    ReadLines(ReadDnsmasqLine, Split(text, '\n'))
  }

  /** Free of the delimiters of both formats. */
  predicate Delimited(r: Record) {
    && ' ' !in r.domain && '\"' !in r.domain && '\n' !in r.domain && '/' !in r.domain
    && ' ' !in r.address && '\"' !in r.address && '\n' !in r.address
  }

  /** What a record says, without the family its address already tells. */
  function Pairs(records: seq<Record>): seq<(string, string)> {
    seq(|records|, i requires 0 <= i < |records| => (records[i].domain, records[i].address))
  }

  lemma SplitAt(first: string, c: char, rest: string)
    requires c !in first
    ensures Split(first + [c] + rest, c) == [first] + Split(rest, c)
  {
    IndexIn(first, c, rest);
    assert (first + [c] + rest)[..|first|] == first;
    assert (first + [c] + rest)[|first| + 1..] == rest;
  }

  lemma SplitNone(s: string, c: char)
    requires c !in s
    ensures Split(s, c) == [s]
  {
    IndexAbsent(s, c);
  }

  lemma SplitPair(a: string, b: string)
    requires ' ' !in a && ' ' !in b
    ensures Split(a + [' '] + b, ' ') == [a, b]
  {
    SplitAt(a, ' ', b);
    SplitNone(b, ' ');
  }

  lemma InField(a: string, b: string)
    ensures a + " IN " + b == a + [' '] + ("IN" + [' '] + b)
  {
    assert " IN " == [' '] + "IN" + [' '];
    Assoc(a, [' '], "IN" + [' '] + b);
  }

  lemma SplitFields(domain: string, t: string, address: string)
    requires ' ' !in domain && ' ' !in t && ' ' !in address
    ensures Split(domain + [' '] + ("IN" + [' '] + (t + [' '] + address)), ' ') == [domain, "IN", t, address]
  {
    var rest := t + [' '] + address;
    SplitPair(t, address);
    SplitAt("IN", ' ', rest);
    assert Split("IN" + [' '] + rest, ' ') == ["IN", t, address];
    SplitAt(domain, ' ', "IN" + [' '] + rest);
  }

  lemma FieldsSplit(r: Record)
    requires Delimited(r)
    ensures Split(Fields(r), ' ') == [r.domain, "IN", TypeName(r.family), r.address]
  {
    InField(r.domain, TypeName(r.family) + [' '] + r.address);
    SplitFields(r.domain, TypeName(r.family), r.address);
  }

  lemma FieldsAreQuotable(r: Record)
    requires Delimited(r)
    ensures '\"' !in Fields(r) && '\n' !in Fields(r)
  {}

  /** A quoted text reads as what is between the quotes. */
  lemma QuotedBody(prefix: string, inner: string)
    requires '\"' !in inner
    ensures var line := prefix + inner + "\"";
            && prefix <= line
            && line[|prefix|..] == inner + "\""
            && IndexOf(inner + "\"", '\"') == |inner|
            && (inner + "\"")[..|inner|] == inner
  {
    Assoc(prefix, inner, "\"");
    Assoc(inner + ['\"'], "", "");
    IndexIn(inner, '\"', "");
  }

  lemma ReadUnboundWritten(r: Record)
    requires Delimited(r)
    ensures ReadUnboundLine(UnboundLine(r)) == Some(r) && '\n' !in UnboundLine(r)
  {
    FieldsSplit(r);
    FieldsAreQuotable(r);
    QuotedBody(UNBOUND_PREFIX, Fields(r));
  }

  lemma ReadDnsmasqWritten(r: Record)
    requires Delimited(r)
    ensures ReadDnsmasqLine(DnsmasqLine(r)) == Some((r.domain, r.address)) && '\n' !in DnsmasqLine(r)
  {
    var body := r.domain + ['/'] + r.address;
    assert DnsmasqLine(r) == DNSMASQ_PREFIX + body;
    assert DnsmasqLine(r)[|DNSMASQ_PREFIX|..] == body;
    IndexIn(r.domain, '/', r.address);
    assert body[..|r.domain|] == r.domain && body[|r.domain| + 1..] == r.address;
  }

  lemma TextFirst(line: Record -> string, records: seq<Record>)
    requires |records| > 0
    ensures Text(line, records) == line(records[0]) + ['\n'] + Text(line, records[1..])
  {
    TextConcat(line, [records[0]], records[1..]);
    TextOfOne(line, records[0]);
    assert [records[0]] + records[1..] == records;
  }

  function Values<T>(value: Record -> T, records: seq<Record>): seq<T> {
    seq(|records|, i requires 0 <= i < |records| => value(records[i]))
  }

  ghost predicate ReadsBack<T>(line: Record -> string, read: string -> Option<T>, value: Record -> T, r: Record) {
    '\n' !in line(r) && read(line(r)) == Some(value(r))
  }

  lemma ReadFirst<T>(read: string -> Option<T>, first: string, rest: string)
    requires '\n' !in first && read(first).Some?
    ensures ReadLines(read, Split(first + ['\n'] + rest, '\n')) ==
            [read(first).value] + ReadLines(read, Split(rest, '\n'))
  {
    SplitAt(first, '\n', rest);
    assert ([first] + Split(rest, '\n'))[1..] == Split(rest, '\n');
  }

  /** Lines that each read back to a value read back to the values, in order. */
  lemma {:induction false} LinesRoundTrip<T>(line: Record -> string, read: string -> Option<T>, value: Record -> T,
                                             records: seq<Record>)
    requires read("") == None
    requires forall r :: r in records ==> ReadsBack(line, read, value, r)
    ensures ReadLines(read, Split(Text(line, records), '\n')) == Values(value, records)
  {
    if |records| == 0 {
      assert Split("", '\n') == [""];
      assert ReadLines(read, [""]) == [] + ReadLines(read, [""][1..]);
    } else {
      assert records[0] in records && ReadsBack(line, read, value, records[0]);
      TextFirst(line, records);
      ReadFirst(read, line(records[0]), Text(line, records[1..]));
      LinesRoundTrip(line, read, value, records[1..]);
      assert Values(value, records) == [value(records[0])] + Values(value, records[1..]);
    }
  }

  /** Reading the Unbound lines gives back every record, in order. */
  lemma UnboundRoundTrip(records: seq<Record>)
    requires forall r :: r in records ==> Delimited(r)
    ensures ReadUnbound(Text(UnboundLine, records)) == records
  {
    var same := (r: Record) => r;
    forall r | r in records ensures ReadsBack(UnboundLine, ReadUnboundLine, same, r) {
      ReadUnboundWritten(r);
    }
    LinesRoundTrip(UnboundLine, ReadUnboundLine, same, records);
    assert Values(same, records) == records;
  }

  /** Reading the dnsmasq lines gives back every (domain, address) pair, in order. */
  lemma DnsmasqRoundTrip(records: seq<Record>)
    requires forall r :: r in records ==> Delimited(r)
    ensures ReadDnsmasq(Text(DnsmasqLine, records)) == Pairs(records)
  {
    var pair := (r: Record) => (r.domain, r.address);
    forall r | r in records ensures ReadsBack(DnsmasqLine, ReadDnsmasqLine, pair, r) {
      ReadDnsmasqWritten(r);
    }
    LinesRoundTrip(DnsmasqLine, ReadDnsmasqLine, pair, records);
    assert Values(pair, records) == Pairs(records);
  }

  /** The two files denote the same relation. */
  lemma SameRelation(net: Network, names: seq<string>)
    requires forall r :: r in Records(net, names) ==> Delimited(r)
    ensures Pairs(ReadUnbound(Text(UnboundLine, Records(net, names)))) ==
            ReadDnsmasq(Text(DnsmasqLine, Records(net, names)))
  {
    UnboundRoundTrip(Records(net, names));
    DnsmasqRoundTrip(Records(net, names));
  }

  /** The two line formats, spelled out. */
  lemma LinesInFull(domain: string, address: string)
    ensures UnboundLine(Record(domain, IPv4, address)) ==
            "    local-data: \"" + (domain + " IN " + ("A" + " " + address)) + "\""
    ensures UnboundLine(Record(domain, IPv6, address)) ==
            "    local-data: \"" + (domain + " IN " + ("AAAA" + " " + address)) + "\""
    ensures DnsmasqLine(Record(domain, IPv4, address)) == "address=/." + domain + "/" + address
    ensures DnsmasqLine(Record(domain, IPv6, address)) == "address=/." + domain + "/" + address
  {}

  /** And in which order: name by name, the IPv4 record before the IPv6 one. */
  lemma {:induction false} RecordsAt(net: Network, names: seq<string>, i: nat)
    requires i < |names|
    ensures var records := Records(net, names);
            && (!net.noIp4 && !net.noIp6 ==>
                  && |records| == 2 * |names|
                  && records[2 * i] == Record(names[i], IPv4, net.ip4)
                  && records[2 * i + 1] == Record(names[i], IPv6, net.ip6))
            && (!net.noIp4 && net.noIp6 ==> |records| == |names| && records[i] == Record(names[i], IPv4, net.ip4))
            && (net.noIp4 && !net.noIp6 ==> |records| == |names| && records[i] == Record(names[i], IPv6, net.ip6))
            && (net.noIp4 && net.noIp6 ==> records == [])
  {
    var init, last := names[..|names| - 1], |names| - 1;
    if |names| > 1 {
      RecordsAt(net, init, if i < last then i else 0);
    } else {
      assert Records(net, init) == [];
    }
  }

  /** The names added to the proxy come first, as they are, and the stored ones follow in strictly ascending order. */
  lemma WrittenInOrder(domains: seq<string>, db: Database)
    requires db.Valid()
    ensures var names := Written(domains, db);
            && domains <= names
            && forall i, j :: |domains| <= i < j < |names| ==> Less(names[i], names[j])
  {
    OrderedResults(db.lists, db.rows, AnyActive);
  }

  /** Which records are written: every name with every enabled family. */
  lemma {:induction false} RecordsMembers(net: Network, names: seq<string>, r: Record)
    ensures r in Records(net, names) <==>
            r.domain in names && (if r.family == IPv4 then !net.noIp4 && r.address == net.ip4
                                  else !net.noIp6 && r.address == net.ip6)
  {
    if |names| > 0 {
      RecordsMembers(net, names[..|names| - 1], r);
    }
  }

  /**
   * A stored name is written exactly when its list is active. Being whitelisted makes no difference: the writers
   * use get(0), not get_blocked.
   */
  lemma WrittenIffActive(lists: seq<ListRow>, rows: seq<DomainRow>, name: string)
    requires UniqueLists(lists) && DistinctNames(rows)
    ensures name in NamesIn(OrderByName(Join(lists, rows, AnyActive))) <==>
            name in AsMap(rows) && exists l :: l in lists && l.id == AsMap(rows)[name] && l.active
  {
    OrderedResults(lists, rows, AnyActive);
    AsMapEntries(rows);
    var found := OrderByName(Join(lists, rows, AnyActive));
    if name in AsMap(rows) {
      var d := DomainRow(name, AsMap(rows)[name]);
      if l :| l in lists && l.id == d.listId && l.active {
        assert Joins(AnyActive, l, d) && IsResult(lists, rows, AnyActive, Joined(l, d));
        var i :| 0 <= i < |found| && found[i] == Joined(l, d);
        assert NamesIn(found)[i] == name;
      }
    }
    if name in NamesIn(found) {
      var i :| 0 <= i < |found| && NamesIn(found)[i] == name;
      var d := DomainRow(found[i].name, found[i].listId);
      assert found[i] in found;
      var l :| l in lists && Joins(AnyActive, l, d) && found[i] == Joined(l, d);
    }
  }

  /** In particular a whitelisted name goes into the file exactly while the whitelist is enabled. */
  lemma WhitelistedIsWritten(lists: seq<ListRow>, rows: seq<DomainRow>, whitelist: ListRow, name: string)
    requires UniqueLists(lists) && DistinctNames(rows)
    requires whitelist in lists && whitelist.isWhitelist && name in AsMap(rows) && AsMap(rows)[name] == whitelist.id
    ensures Blocklist.Whitelisted(State(lists, AsMap(rows)), name)
    ensures name in NamesIn(OrderByName(Join(lists, rows, AnyActive))) <==> whitelist.active
  {
    WrittenIffActive(lists, rows, name);
    if l :| l in lists && l.id == whitelist.id && l.active {
      SameRow(lists, l, whitelist);
    }
  }
}
