/** Domain lists as JSON, and the cycle export, encode, decode, import over the store. */
module DomainListJson {
  import opened Common
  import opened Tables
  import opened Blocklist
  import opened Queries
  import opened Runs
  import opened Json

  // ---------------------------------------------------------------- encoding

  function EncodedDomain(d: Domain): Value {
    var members: map<string, Value> := map["name" := Text(d.name), "list_id" := Number(d.listId)];
    Object(if d.listName.Some? then members["list_name" := Text(d.listName.value)] else members)
  }

  function EncodedDomains(domains: seq<Domain>): seq<Value> {
    seq(|domains|, i requires 0 <= i < |domains| => EncodedDomain(domains[i]))
  }

  /** to_json writes into the members already there; an absent description is not written. */
  function Encoded(members: map<string, Value>, lst: DomainList): map<string, Value> {
    var named := members["name" := Text(lst.name)]["url" := Text(lst.url)];
    var described := if lst.description.Some? then named["description" := Text(lst.description.value)] else named;
    described["domains" := Array(EncodedDomains(lst.domains))]
  }

  // ---------------------------------------------------------------- decoding

  /** The name of one entry, if it has one. */
  function EntryName(item: Value): Attempt<Option<string>> {
    var name :- Member(item, "name");
    if IsEmpty(name) then Returned(None)
    else
      var text :- AsString(name);
      Returned(Some(text))
  }

  /** The valid names of the entries, in order, up to the first entry that throws. */
  function EntryNames(valid: string -> bool, items: seq<Value>): (seq<string>, bool) {
    if |items| == 0 then ([], true)
    else
      var (before, ok) := EntryNames(valid, items[..|items| - 1]);
      if !ok then (before, false)
      else
        match EntryName(items[|items| - 1])
        case Threw => (before, false)
        case Returned(None) => (before, true)
        case Returned(Some(name)) => (if valid(name) then before + [name] else before, true)
  }

  /** A text member replaces the old value unless it is missing or empty. */
  function TextField(root: Value, key: string, before: string): Attempt<string> {
    var member :- Member(root, key);
    if IsEmpty(member) then Returned(before) else AsString(member)
  }

  function Fresh(name: string): Domain {
    Domain(name, 0, Some(""))
  }

  function FreshDomains(names: seq<string>): seq<Domain> {
    seq(|names|, i requires 0 <= i < |names| => Fresh(names[i]))
  }

  lemma FreshAppend(names: seq<string>, name: string)
    ensures FreshDomains(names + [name]) == FreshDomains(names) + [Fresh(name)]
  {}

  /** init_from_json returned, complained that the domains are no array, or was stopped by a JSON accessor. */
  datatype Reading = Filled | NotAnArray | Stopped

  /** init_from_json: the fields it has set by the time it ends, and how it ends. */
  function Decoded(valid: string -> bool, before: DomainList, root: Value): (DomainList, Reading) {
    var name := TextField(root, "name", before.name);
    if name.Threw? then (before, Stopped) else
    var named := before.(name := name.value);
    var url := TextField(root, "url", before.url);
    if url.Threw? then (named, Stopped) else
    var located := named.(url := url.value);
    var description := if DescriptionAbsent(root) then Returned(before.description) else
      match MemberText(root, "description") case Threw => Threw case Returned(t) => Returned(Some(t));
    if description.Threw? then (located, Stopped) else
    var described := located.(description := description.value);
    var entries := Member(root, "domains").value;
    if !IsEmpty(entries) && !entries.Array? then (described, NotAnArray)
    else
      var (names, ok) := EntryNames(valid, if entries.Array? then entries.items else []);
      (described.(domains := before.domains + FreshDomains(names)), if ok then Filled else Stopped)
  }

  predicate DescriptionAbsent(root: Value)
    requires Member(root, "description").Returned?
  {
    IsEmpty(Member(root, "description").value)
  }

  /** A domain list object, filled in place. */
  class DomainListObject {
    var record: DomainList

    constructor (record: DomainList)
      ensures this.record == record
    {
      this.record := record;
    }

    method InitFromJson(valid: string -> bool, root: Value) returns (reading: Reading)
      modifies this
      ensures (record, reading) == Decoded(valid, old(record), root)
    {
      var name := TextField(root, "name", record.name);
      if name.Threw? { return Stopped; }
      record := record.(name := name.value);
      var url := TextField(root, "url", record.url);
      if url.Threw? { return Stopped; }
      record := record.(url := url.value);
      if !IsEmpty(Member(root, "description").value) {
        var description := MemberText(root, "description");
        if description.Threw? { return Stopped; }
        record := record.(description := Some(description.value));
      }
      var entries := Member(root, "domains").value;
      if !IsEmpty(entries) && !entries.Array? {
        return NotAnArray;
      }
      var items := if entries.Array? then entries.items else [];
      var ok := PushEntries(valid, items);
      reading := if ok then Filled else Stopped;
    }

    /** The loop over the entries. */
    method PushEntries(valid: string -> bool, items: seq<Value>) returns (ok: bool)
      modifies this
      ensures var (names, all) := EntryNames(valid, items);
              ok == all && record == old(record).(domains := old(record).domains + FreshDomains(names))
    {
      ghost var start := record;
      assert start.domains + FreshDomains([]) == start.domains;
      for i := 0 to |items|
        invariant record == start.(domains := start.domains + FreshDomains(EntryNames(valid, items[..i]).0))
        invariant EntryNames(valid, items[..i]).1
      {
        assert items[..i + 1][..i] == items[..i];
        var entry := EntryName(items[i]);
        if entry.Threw? {
          StuckEntries(valid, items, i + 1);
          return false;
        }
        if entry.value.Some? && valid(entry.value.value) {
          FreshAppend(EntryNames(valid, items[..i]).0, entry.value.value);
          record := record.(domains := record.domains + [Fresh(entry.value.value)]);
        }
      }
      assert items[..|items|] == items;
      ok := true;
    }

    method ToJson(members: map<string, Value>) returns (root: map<string, Value>)
      ensures root == Encoded(members, record)
    {
      root := members["name" := Text(record.name)];
      root := root["url" := Text(record.url)];
      if record.description.Some? {
        root := root["description" := Text(record.description.value)];
      }
      var items: seq<Value> := [];
      for i := 0 to |record.domains|
        invariant items == EncodedDomains(record.domains[..i])
      {
        items := items + [EncodedDomain(record.domains[i])];
      }
      assert record.domains[..|record.domains|] == record.domains;
      root := root["domains" := Array(items)];
    }
  }

  /** Once an entry has thrown, the entries after it are never looked at. */
  lemma {:induction false} StuckEntries(valid: string -> bool, items: seq<Value>, i: nat)
    requires i <= |items| && !EntryNames(valid, items[..i]).1
    ensures EntryNames(valid, items) == EntryNames(valid, items[..i])
    decreases |items|
  {
    if i == |items| {
      assert items[..i] == items;
    } else {
      assert items[..|items| - 1][..i] == items[..i];
      StuckEntries(valid, items[..|items| - 1], i);
    }
  }

  // ---------------------------------------------------------------- round trips

  function DomainNames(domains: seq<Domain>): seq<string> {
    seq(|domains|, i requires 0 <= i < |domains| => domains[i].name)
  }

  lemma EncodedHasName(d: Domain)
    ensures EntryName(EncodedDomain(d)) == Returned(Some(d.name))
  {
    assert EncodedDomain(d).members["name"] == Text(d.name);
  }

  lemma {:induction false} EntriesRoundTrip(valid: string -> bool, domains: seq<Domain>)
    ensures EntryNames(valid, EncodedDomains(domains)).0 == Accepted(valid, DomainNames(domains))
    ensures EntryNames(valid, EncodedDomains(domains)).1
  {
    if |domains| > 0 {
      var init, last := domains[..|domains| - 1], domains[|domains| - 1];
      EntriesRoundTrip(valid, init);
      EncodedHasName(last);
      assert EncodedDomains(domains)[..|domains| - 1] == EncodedDomains(init);
      assert EncodedDomains(domains)[|domains| - 1] == EncodedDomain(last);
      assert DomainNames(domains)[..|domains| - 1] == DomainNames(init);
      assert DomainNames(domains)[|domains| - 1] == last.name;
    }
  }

  /** Decoding an encoded list into any object: a missing description stays, and the valid names come behind. */
  lemma DecodeEncodedOver(valid: string -> bool, before: DomainList, lst: DomainList)
    ensures var description := if lst.description.Some? then lst.description else before.description;
            Decoded(valid, before, Object(Encoded(map[], lst))) ==
            (before.(name := lst.name, url := lst.url, description := description,
                     domains := before.domains + FreshDomains(Accepted(valid, DomainNames(lst.domains)))), Filled)
  {
    var members := Encoded(map[], lst);
    EntriesRoundTrip(valid, lst.domains);
    assert members["name"] == Text(lst.name) && members["url"] == Text(lst.url);
    assert members["domains"] == Array(EncodedDomains(lst.domains));
    if |lst.domains| == 0 {
      assert EncodedDomains(lst.domains) == [];
    }
  }

  /**
   * Decoding an encoded list into a fresh object restores name, url and description (an absent one becomes empty) and
   * gives the valid names in their order.
   */
  lemma DecodeEncoded(valid: string -> bool, lst: DomainList)
    ensures Decoded(valid, NO_LIST, Object(Encoded(map[], lst))) ==
            (NO_LIST.(name := lst.name, url := lst.url, description := Some(TextOf(lst.description)),
                      domains := FreshDomains(Accepted(valid, DomainNames(lst.domains)))), Filled)
  {
    DecodeEncodedOver(valid, NO_LIST, lst);
    assert NO_LIST.domains + FreshDomains(Accepted(valid, DomainNames(lst.domains))) ==
           FreshDomains(Accepted(valid, DomainNames(lst.domains)));
  }

  /** Members that are missing or empty leave the object as it is. */
  lemma EmptyMembersKept(valid: string -> bool, before: DomainList, members: map<string, Value>)
    requires forall key :: key in ["name", "url", "description", "domains"] && key in members ==> IsEmpty(members[key])
    ensures Decoded(valid, before, Object(members)) == (before, Filled)
  {
    assert "name" in ["name", "url", "description", "domains"] && "url" in ["name", "url", "description", "domains"];
    assert "description" in ["name", "url", "description", "domains"];
    assert "domains" in ["name", "url", "description", "domains"];
    assert before.domains + FreshDomains([]) == before.domains;
  }

  /** An entry whose name is missing or empty is passed over. */
  lemma {:induction false} NamelessEntryPassed(valid: string -> bool, a: seq<Value>, item: Value, b: seq<Value>)
    requires Member(item, "name").Returned? && IsEmpty(Member(item, "name").value)
    ensures EntryNames(valid, a + [item] + b) == EntryNames(valid, a + b)
  {
    if |b| == 0 {
      assert a + b == a && a + [item] + b == a + [item];
      assert (a + [item])[..|a|] == a;
    } else {
      var init := b[..|b| - 1];
      assert (a + [item] + b)[..|a + [item] + b| - 1] == a + [item] + init;
      assert (a + b)[..|a + b| - 1] == a + init;
      NamelessEntryPassed(valid, a, item, init);
    }
  }

  /** Domains that are neither an array nor empty are complained about, once the other members have been read. */
  lemma NoArrayNoDomains(valid: string -> bool, before: DomainList, domains: Value)
    requires !domains.Array? && !domains.Null? && domains != Object(map[])
    ensures Decoded(valid, before, Object(map["domains" := domains])) == (before, NotAnArray)
  {
    var members: map<string, Value> := map["domains" := domains];
    assert "name" !in members && "url" !in members && "description" !in members && "domains" in members;
    if domains.Object? && domains.members == map[] {
      assert false;
    }
  }

  /** A name, url or description that is an array or object, and not empty, stops the decoding at that member. */
  lemma NoTextStops(valid: string -> bool, before: DomainList, lst: DomainList, bad: Value)
    requires (bad.Array? && |bad.items| > 0) || (bad.Object? && |bad.members| > 0)
    ensures Decoded(valid, before, Object(Encoded(map[], lst)["name" := bad])) == (before, Stopped)
    ensures Decoded(valid, before, Object(Encoded(map[], lst)["url" := bad])) == (before.(name := lst.name), Stopped)
    ensures Decoded(valid, before, Object(Encoded(map[], lst)["description" := bad])) ==
            (before.(name := lst.name, url := lst.url), Stopped)
  {
    var members := Encoded(map[], lst);
    assert members["name"] == Text(lst.name) && members["url"] == Text(lst.url);
    assert members["url" := bad]["name"] == Text(lst.name);
    assert members["description" := bad]["name"] == Text(lst.name);
    assert members["description" := bad]["url"] == Text(lst.url);
  }

  /** Which members an encoded list has: its four over those already there, the description only when there is one. */
  lemma EncodedInFull(members: map<string, Value>, lst: DomainList, key: string)
    ensures var root := Encoded(members, lst);
            && "name" in root && root["name"] == Text(lst.name) && "url" in root && root["url"] == Text(lst.url)
            && "domains" in root && root["domains"].Array? && |root["domains"].items| == |lst.domains|
            && (lst.description.Some? ==> "description" in root && root["description"] == Text(lst.description.value))
            && (key !in {"name", "url", "domains"} && (key == "description" ==> lst.description.None?) ==>
                  (key in root <==> key in members) && (key in members ==> root[key] == members[key]))
  {}

  /** The members of an encoded name, read with the accessors: its name, its list, and the name of that, if known. */
  lemma EncodedDomainReads(d: Domain)
    requires -2147483648 <= d.listId <= 2147483647
    ensures var root := EncodedDomain(d);
            && MemberText(root, "name") == Returned(d.name)
            && Member(root, "list_id").Returned? && AsInt(Member(root, "list_id").value) == Returned(d.listId)
            && MemberText(root, "list_name") == Returned(if d.listName.Some? then d.listName.value else "")
  {
    var members := EncodedDomain(d).members;
    assert "name" in members && members["name"] == Text(d.name);
    assert "list_id" in members && members["list_id"] == Number(d.listId);
    assert "list_name" in members <==> d.listName.Some?;
  }

  lemma ReceivedFrom(valid: string -> bool, domains: seq<Domain>, name: string)
    ensures name in NamesOf(FreshDomains(Accepted(valid, DomainNames(domains)))) <==>
            valid(name) && exists d :: d in domains && d.name == name
  {
    var all := DomainNames(domains);
    var names := Accepted(valid, all);
    var received := FreshDomains(names);
    if d :| d in received && d.name == name {
      assert name in names;
      var i :| 0 <= i < |all| && all[i] == name;
      assert domains[i] in domains;
    }
    if valid(name) {
      if d :| d in domains && d.name == name {
        var i :| 0 <= i < |domains| && domains[i] == d;
        assert all[i] == name;
        var j :| 0 <= j < |names| && names[j] == name;
        assert received[j] in received;
      }
    }
  }

  lemma ExportedFrom(lists: seq<ListRow>, rows: seq<DomainRow>, l: ListRow, name: string)
    requires DistinctNames(rows) && UniqueLists(lists) && l in lists
    ensures (exists d :: d in OrderByName(Join(lists, rows, ActiveList(l.id))) && d.name == name) <==>
            l.active && name in AsMap(rows) && AsMap(rows)[name] == l.id
  {
    var domains := OrderByName(Join(lists, rows, ActiveList(l.id)));
    OrderedResults(lists, rows, ActiveList(l.id));
    AsMapEntries(rows);
    if d :| d in domains && d.name == name {
      var row := DomainRow(d.name, d.listId);
      var k :| k in lists && Joins(ActiveList(l.id), k, row);
      SameRow(lists, k, l);
    }
    if l.active && name in AsMap(rows) && AsMap(rows)[name] == l.id {
      var row := DomainRow(name, l.id);
      assert Joins(ActiveList(l.id), l, row);
      assert Joined(l, row) in domains;
    }
  }

  /** What the cycle export, encode, decode gives back of a list. */
  function Received(valid: string -> bool, lists: seq<ListRow>, rows: seq<DomainRow>, name: string):
    (DomainList, Reading)
  {
    Decoded(valid, NO_LIST, Object(Encoded(map[], Exported(lists, rows, name, true))))
  }

  /** The fields of the list, and its valid names if it is active. */
  lemma ReceivedIs(valid: string -> bool, lists: seq<ListRow>, rows: seq<DomainRow>, l: ListRow)
    requires DistinctNames(rows) && Invariant(State(lists, AsMap(rows))) && l in lists
    ensures var (received, reading) := Received(valid, lists, rows, l.name);
            && reading == Filled
            && received.name == l.name && received.url == l.url && TextOf(received.description) == l.description
            && forall n :: n in NamesOf(received.domains) <==>
                 l.active && n in AsMap(rows) && AsMap(rows)[n] == l.id && valid(n)
  {
    var exported := Exported(lists, rows, l.name, true);
    DecodeEncoded(valid, exported);
    SameRow(lists, l, FindList(lists, l.name).value);
    assert WellFormedList(l);
    forall n
      ensures n in NamesOf(FreshDomains(Accepted(valid, DomainNames(exported.domains)))) <==>
              l.active && n in AsMap(rows) && AsMap(rows)[n] == l.id && valid(n)
    {
      ReceivedFrom(valid, exported.domains, n);
      ExportedFrom(lists, rows, l, n);
    }
  }

  /** Export, encode, decode, import: only the modification time of the list changes, whatever counts as valid. */
  lemma ExportImportIsIdentity(valid: string -> bool, lists: seq<ListRow>, rows: seq<DomainRow>, l: ListRow,
                               custom: bool, now: int)
    requires DistinctNames(rows) && Invariant(State(lists, AsMap(rows))) && l in lists
    ensures var (received, reading) := Received(valid, lists, rows, l.name);
            && reading == Filled
            && Import(State(lists, AsMap(rows)), received, custom, now) ==
               State(SetMtime(lists, l.id, now), AsMap(rows))
  {
    ReceivedIs(valid, lists, rows, l);
    SameRow(lists, l, FindList(lists, l.name).value);
    assert WellFormedList(l);
    OverrideSame(AsMap(rows), NamesOf(Received(valid, lists, rows, l.name).0.domains), l.id);
  }

  lemma OverrideSame(m: map<string, int>, names: set<string>, id: int)
    requires forall n :: n in names ==> n in m && m[n] == id
    ensures Override(m, names, id) == m
  {}

  /** The names after list `was` was removed and came back as `id`, with those of its names `back` lets through. */
  ghost predicate RestoredNames(before: map<string, int>, after: map<string, int>, was: int, id: int,
                                back: string -> bool) {
    forall n ::
      && (n in after <==> n in before && (before[n] == was ==> back(n)))
      && (n in after ==> after[n] == if before[n] == was then id else before[n])
  }

  /** The list itself is then the last one, enabled and no whitelist, after the lists that were left. */
  ghost predicate Restored(before: State, left: seq<ListRow>, after: State, l: ListRow, back: string -> bool,
                           custom: bool, now: int) {
    var id := MaxId(left) + 1;
    && after.lists == left + [ListRow(id, l.name, l.url, l.description, true, custom, false, now)]
    && RestoredNames(before.domains, after.domains, l.id, id, back)
  }

  /**
   * Exporting a list, removing it and importing it again brings it back, with its valid names if it was active and
   * with none otherwise.
   */
  lemma ImportRestoresRemoved(valid: string -> bool, lists: seq<ListRow>, rows: seq<DomainRow>, l: ListRow,
                              custom: bool, now: int)
    requires DistinctNames(rows) && Invariant(State(lists, AsMap(rows))) && l in lists
    ensures var before := State(lists, AsMap(rows));
            var received := Received(valid, lists, rows, l.name).0;
            Restored(before, DeleteList(lists, l.name), Import(Remove(before, l.name), received, custom, now), l,
                     n => l.active && valid(n), custom, now)
  {
    ReceivedIs(valid, lists, rows, l);
    assert WellFormedList(l);
    RemovedIsRestored(State(lists, AsMap(rows)), l, Received(valid, lists, rows, l.name).0,
                      n => l.active && valid(n), custom, now);
  }

  lemma RemovedIsRestored(st: State, l: ListRow, lst: DomainList, back: string -> bool, custom: bool, now: int)
    requires UniqueLists(st.lists) && l in st.lists
    requires lst.name == l.name != "" && lst.url == l.url && TextOf(lst.description) == l.description
    requires forall n :: n in NamesOf(lst.domains) <==> n in st.domains && st.domains[n] == l.id && back(n)
    ensures Restored(st, DeleteList(st.lists, l.name), Import(Remove(st, l.name), lst, custom, now), l, back,
                     custom, now)
  {
    GoneIsGone(st, l.name);
    NamesRestored(st, l, NamesOf(lst.domains), MaxId(Remove(st, l.name).lists) + 1, back);
    ImportedIsRestored(st, Remove(st, l.name), l, lst, back, custom, now);
  }

  lemma ImportedIsRestored(before: State, gone: State, l: ListRow, lst: DomainList, back: string -> bool,
                           custom: bool, now: int)
    requires lst.name == l.name != "" && lst.url == l.url && TextOf(lst.description) == l.description
    requires !HasList(gone.lists, l.name)
    requires var id := MaxId(gone.lists) + 1;
             RestoredNames(before.domains, Override(gone.domains, NamesOf(lst.domains), id), l.id, id, back)
    ensures Restored(before, gone.lists, Import(gone, lst, custom, now), l, back, custom, now)
  {
    ImportIntoGone(gone, lst, custom, now);
  }

  lemma GoneIsGone(st: State, name: string)
    ensures !HasList(Remove(st, name).lists, name)
  {}

  /** An import under a name that no list has appends the list and moves the names to it. */
  lemma ImportIntoGone(st: State, lst: DomainList, custom: bool, now: int)
    requires lst.name != "" && !HasList(st.lists, lst.name)
    ensures var id := MaxId(st.lists) + 1;
            Import(st, lst, custom, now) ==
            State(st.lists + [ListRow(id, lst.name, lst.url, TextOf(lst.description), true, custom, false, now)],
                  Override(st.domains, NamesOf(lst.domains), id))
  {
    var row := ListRow(MaxId(st.lists) + 1, lst.name, lst.url, TextOf(lst.description), true, custom, false, 0);
    FindAppended(st.lists, row);
    MtimeOfLast(st.lists, row, now);
  }

  lemma NamesRestored(st: State, l: ListRow, names: set<string>, id: int, back: string -> bool)
    requires UniqueLists(st.lists) && l in st.lists
    requires forall n :: n in names <==> n in st.domains && st.domains[n] == l.id && back(n)
    ensures RestoredNames(st.domains, Override(Remove(st, l.name).domains, names, id), l.id, id, back)
  {
    OnlyOneOf(st.lists, l);
  }

  lemma MtimeOfLast(rest: seq<ListRow>, row: ListRow, now: int)
    requires forall l :: l in rest ==> l.id != row.id
    ensures SetMtime(rest + [row], row.id, now) == rest + [row.(mtime := now)]
  {
    forall i | 0 <= i < |rest| ensures rest[i].id != row.id {
      assert rest[i] in rest;
    }
  }

  lemma OnlyOneOf(lists: seq<ListRow>, l: ListRow)
    requires UniqueLists(lists) && l in lists
    ensures (set k | k in lists && k.name == l.name :: k.id) == {l.id}
  {
    forall k | k in lists && k.name == l.name ensures k == l {
      SameRow(lists, k, l);
    }
  }
}
