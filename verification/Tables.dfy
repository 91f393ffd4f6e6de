/** The two linked tables of the schema, the statements the managers run on them, and the map they denote. */
module Tables {
  import opened Common

  /** A row of domain_lists. */
  datatype ListRow = ListRow(
    id: int, name: string, url: string, description: string,
    active: bool, custom: bool, isWhitelist: bool, mtime: int)

  /** A row of domains. */
  datatype DomainRow = DomainRow(name: string, listId: int)

  /** types::Domain: a row of domains joined with its list. A default-constructed one has no name and list 0. */
  datatype Domain = Domain(name: string, listId: int, listName: Option<string>)

  const NO_DOMAIN := Domain("", 0, Some(""))

  /** types::DomainList: a list on its way in or out of the store. */
  datatype DomainList = DomainList(
    id: int, name: string, url: string, description: Option<string>,
    active: bool, custom: bool, mtime: int, domains: seq<Domain>)

  const NO_LIST := DomainList(0, "", "", Some(""), false, false, 0, [])

  /** What the tables mean: the lists, and for each blocked or whitelisted name the list that owns it. */
  datatype State = State(lists: seq<ListRow>, domains: map<string, int>)

  // ---------------------------------------------------------------- domain_lists

  /** The lists seeded into an empty database: name, description and whether it is the whitelist. All are custom. */
  const SEEDS: seq<(string, string, bool)> := [
    ("CUSTOM", "Custom, uncategorized list", false),
    ("WHITELIST", "Custom, default whitelist", true)]

  /** INSERT INTO domain_lists(name, description, custom, is_whitelist) for each seed. */
  function Seeded(lists: seq<ListRow>, seeds: seq<(string, string, bool)>): seq<ListRow> {
    if |seeds| == 0 then lists
    else
      var before, s := Seeded(lists, seeds[..|seeds| - 1]), seeds[|seeds| - 1];
      before + [ListRow(MaxId(before) + 1, s.0, "", s.1, true, true, s.2, 0)]
  }

  predicate HasList(lists: seq<ListRow>, name: string) {
    exists l :: l in lists && l.name == name
  }

  predicate HasId(lists: seq<ListRow>, id: int) {
    exists l :: l in lists && l.id == id
  }

  /** PRIMARY KEY on id, UNIQUE on name. */
  ghost predicate UniqueLists(lists: seq<ListRow>) {
    forall i, j :: 0 <= i < j < |lists| ==> lists[i].id != lists[j].id && lists[i].name != lists[j].name
  }

  lemma SameRow(lists: seq<ListRow>, a: ListRow, b: ListRow)
    requires UniqueLists(lists) && a in lists && b in lists && (a.id == b.id || a.name == b.name)
    ensures a == b
  {
    var i :| 0 <= i < |lists| && lists[i] == a;
    var j :| 0 <= j < |lists| && lists[j] == b;
    assert i == j;
  }

  /** The row of a named list. */
  function FindList(lists: seq<ListRow>, name: string): (found: Option<ListRow>)
    ensures found.None? <==> !HasList(lists, name)
    ensures found.Some? ==> found.value in lists && found.value.name == name
  {
    if |lists| == 0 then None
    else if lists[0].name == name then Some(lists[0])
    else
      var rest := FindList(lists[1..], name);
      assert forall l :: l in lists <==> l == lists[0] || l in lists[1..];
      rest
  }

  /** The largest key in use; INTEGER PRIMARY KEY picks the next one, so the key of a removed last row is reused. */
  function MaxId(lists: seq<ListRow>): (m: int)
    ensures m >= 0 && forall l :: l in lists ==> l.id <= m
  {
    if |lists| == 0 then 0
    else
      var m := MaxId(lists[..|lists| - 1]);
      if lists[|lists| - 1].id > m then lists[|lists| - 1].id else m
  }

  /** So the new key is the next one after a key in use, and 1 in an empty table. */
  lemma {:induction false} MaxIdIsUsed(lists: seq<ListRow>)
    ensures MaxId(lists) > 0 ==> HasId(lists, MaxId(lists))
    ensures |lists| == 0 ==> MaxId(lists) == 0
  {
    if |lists| > 0 {
      var init, last := lists[..|lists| - 1], lists[|lists| - 1];
      MaxIdIsUsed(init);
      assert last in lists && forall l :: l in init ==> l in lists;
    }
  }

  function WhitelistIds(lists: seq<ListRow>): set<int> {
    set l | l in lists && l.isWhitelist :: l.id
  }

  /** INSERT OR IGNORE INTO domain_lists(name, url, description, custom). */
  function InsertList(lists: seq<ListRow>, name: string, url: string, description: string, custom: bool): seq<ListRow> {
    if HasList(lists, name) then lists
    else lists + [ListRow(MaxId(lists) + 1, name, url, description, true, custom, false, 0)]
  }

  /** DELETE FROM domain_lists WHERE name = ?. */
  function DeleteList(lists: seq<ListRow>, name: string): (rest: seq<ListRow>)
    ensures forall l :: l in rest <==> l in lists && l.name != name
  {
    if |lists| == 0 then []
    else
      var last := lists[|lists| - 1];
      DeleteList(lists[..|lists| - 1], name) + if last.name != name then [last] else []
  }

  /** UPDATE domain_lists SET active = ? WHERE name = ?. */
  function SetActive(lists: seq<ListRow>, name: string, active: bool): seq<ListRow> {
    seq(|lists|, i requires 0 <= i < |lists| =>
      if lists[i].name == name then lists[i].(active := active) else lists[i])
  }

  /** UPDATE domain_lists SET mtime = ? WHERE id = ?. */
  function SetMtime(lists: seq<ListRow>, id: int, mtime: int): seq<ListRow> {
    seq(|lists|, i requires 0 <= i < |lists| =>
      if lists[i].id == id then lists[i].(mtime := mtime) else lists[i])
  }

  lemma {:induction false} DeleteListUnique(lists: seq<ListRow>, name: string)
    requires UniqueLists(lists)
    ensures UniqueLists(DeleteList(lists, name))
  {
    if |lists| > 0 {
      var init, last := lists[..|lists| - 1], lists[|lists| - 1];
      DeleteListUnique(init, name);
      var kept := DeleteList(init, name);
      forall i | 0 <= i < |kept| ensures kept[i].id != last.id && kept[i].name != last.name {
        assert kept[i] in init;
        var j :| 0 <= j < |init| && init[j] == kept[i];
        assert lists[j] == kept[i];
      }
    }
  }

  lemma InsertListUnique(lists: seq<ListRow>, name: string, url: string, description: string, custom: bool)
    requires UniqueLists(lists)
    ensures UniqueLists(InsertList(lists, name, url, description, custom))
  {
    forall i | 0 <= i < |lists| && !HasList(lists, name)
      ensures lists[i].id != MaxId(lists) + 1 && lists[i].name != name
    {
      assert lists[i] in lists;
    }
  }

  lemma UpdatesUnique(lists: seq<ListRow>, name: string, active: bool, id: int, mtime: int)
    requires UniqueLists(lists)
    ensures UniqueLists(SetActive(lists, name, active)) && UniqueLists(SetMtime(lists, id, mtime))
  {}

  lemma SeededRows()
    ensures Seeded([], SEEDS) == [
      ListRow(1, "CUSTOM", "", "Custom, uncategorized list", true, true, false, 0),
      ListRow(2, "WHITELIST", "", "Custom, default whitelist", true, true, true, 0)]
  {
    assert SEEDS[..1] == [SEEDS[0]];
    assert SEEDS[..1][..0] == [];
    assert Seeded([], []) == [];
    var one := Seeded([], SEEDS[..1]);
    assert one == [ListRow(1, "CUSTOM", "", "Custom, uncategorized list", true, true, false, 0)];
    assert one[..0] == [];
    assert MaxId(one) == 1;
  }

  lemma SeedsUnique()
    ensures UniqueLists(Seeded([], SEEDS))
  {
    SeededRows();
  }

  // ---------------------------------------------------------------- domains

  /** PRIMARY KEY on domains.name. */
  predicate DistinctNames(rows: seq<DomainRow>) {
    forall i, j :: 0 <= i < j < |rows| ==> rows[i].name != rows[j].name
  }

  /** The map the rows denote. */
  function AsMap(rows: seq<DomainRow>): map<string, int> {
    if |rows| == 0 then map[]
    else AsMap(rows[..|rows| - 1])[rows[|rows| - 1].name := rows[|rows| - 1].listId]
  }

  /** DELETE FROM domains WHERE name = ? AND list_id NOT IN (kept). */
  function DeleteName(rows: seq<DomainRow>, name: string, kept: set<int>): seq<DomainRow> {
    if |rows| == 0 then []
    else
      var last := rows[|rows| - 1];
      DeleteName(rows[..|rows| - 1], name, kept) + if last.name == name && last.listId !in kept then [] else [last]
  }

  /** ON DELETE CASCADE: the rows that referred to a removed list go with it. */
  function DeleteCascade(rows: seq<DomainRow>, ids: set<int>): seq<DomainRow> {
    if |rows| == 0 then []
    else
      var last := rows[|rows| - 1];
      DeleteCascade(rows[..|rows| - 1], ids) + if last.listId in ids then [] else [last]
  }

  /** Keys of the map are the names of the rows, and every row is an entry of it. */
  lemma {:induction false} AsMapEntries(rows: seq<DomainRow>)
    ensures forall n :: n in AsMap(rows) <==> exists d :: d in rows && d.name == n
    ensures DistinctNames(rows) ==> forall d :: d in rows ==> AsMap(rows)[d.name] == d.listId
    ensures forall n :: n in AsMap(rows) ==> DomainRow(n, AsMap(rows)[n]) in rows
  {
    if |rows| > 0 {
      var init, last := rows[..|rows| - 1], rows[|rows| - 1];
      AsMapEntries(init);
      assert forall d :: d in rows <==> d in init || d == last;
      forall d | DistinctNames(rows) && d in init
        ensures AsMap(rows)[d.name] == d.listId
      {
        var i :| 0 <= i < |init| && init[i] == d;
        assert rows[i] == d && rows[|rows| - 1] == last;
      }
    }
  }

  lemma AbsentName(rows: seq<DomainRow>, name: string)
    requires name !in AsMap(rows)
    ensures forall i :: 0 <= i < |rows| ==> rows[i].name != name
  {
    AsMapEntries(rows);
    assert forall i :: 0 <= i < |rows| ==> rows[i] in rows;
  }

  lemma AppendMaps(rows: seq<DomainRow>, row: DomainRow)
    ensures AsMap(rows + [row]) == AsMap(rows)[row.name := row.listId]
  {
    assert (rows + [row])[..|rows|] == rows;
  }

  lemma AppendRefines(rows: seq<DomainRow>, row: DomainRow)
    requires DistinctNames(rows) && row.name !in AsMap(rows)
    ensures DistinctNames(rows + [row]) && AsMap(rows + [row]) == AsMap(rows)[row.name := row.listId]
  {
    AbsentName(rows, row.name);
    AppendMaps(rows, row);
  }

  /** A non-empty table is a smaller table and one more name. */
  lemma LastRow(rows: seq<DomainRow>)
    requires |rows| > 0 && DistinctNames(rows)
    ensures var init, last := rows[..|rows| - 1], rows[|rows| - 1];
            DistinctNames(init) && last.name !in AsMap(init) && AsMap(rows) == AsMap(init)[last.name := last.listId]
  {
    var init, last := rows[..|rows| - 1], rows[|rows| - 1];
    AsMapEntries(init);
    forall d | d in init ensures d.name != last.name {
      var i :| 0 <= i < |init| && init[i] == d;
      assert rows[i].name != rows[|rows| - 1].name;
    }
  }

  /** Deletion of one name, seen on the map. */
  function Dropped(m: map<string, int>, name: string, kept: set<int>): map<string, int> {
    map n | n in m && !(n == name && m[n] !in kept) :: m[n]
  }

  /** The cascade, seen on the map. */
  function Disowned(m: map<string, int>, ids: set<int>): map<string, int> {
    map n | n in m && m[n] !in ids :: m[n]
  }

  lemma DroppedStep(m: map<string, int>, k: string, v: int, name: string, kept: set<int>)
    requires k !in m
    ensures Dropped(m[k := v], name, kept) ==
            if k == name && v !in kept then Dropped(m, name, kept) else Dropped(m, name, kept)[k := v]
  {}

  lemma DisownedStep(m: map<string, int>, k: string, v: int, ids: set<int>)
    requires k !in m
    ensures Disowned(m[k := v], ids) == if v in ids then Disowned(m, ids) else Disowned(m, ids)[k := v]
  {}

  lemma {:induction false} DeleteNameRefines(rows: seq<DomainRow>, name: string, kept: set<int>)
    requires DistinctNames(rows)
    ensures DistinctNames(DeleteName(rows, name, kept))
    ensures AsMap(DeleteName(rows, name, kept)) == Dropped(AsMap(rows), name, kept)
  {
    if |rows| > 0 {
      var init, last := rows[..|rows| - 1], rows[|rows| - 1];
      LastRow(rows);
      DeleteNameRefines(init, name, kept);
      DroppedStep(AsMap(init), last.name, last.listId, name, kept);
      if last.name == name && last.listId !in kept {
        assert DeleteName(rows, name, kept) == DeleteName(init, name, kept);
      } else {
        AppendRefines(DeleteName(init, name, kept), last);
      }
    }
  }

  lemma {:induction false} DeleteCascadeRefines(rows: seq<DomainRow>, ids: set<int>)
    requires DistinctNames(rows)
    ensures DistinctNames(DeleteCascade(rows, ids))
    ensures AsMap(DeleteCascade(rows, ids)) == Disowned(AsMap(rows), ids)
  {
    if |rows| > 0 {
      var init, last := rows[..|rows| - 1], rows[|rows| - 1];
      LastRow(rows);
      DeleteCascadeRefines(init, ids);
      DisownedStep(AsMap(init), last.name, last.listId, ids);
      if last.listId in ids {
        assert DeleteCascade(rows, ids) == DeleteCascade(init, ids);
      } else {
        AppendRefines(DeleteCascade(init, ids), last);
      }
    }
  }

  // ---------------------------------------------------------------- the database

  /** One open database: both tables, with the operations the statements perform on them. */
  class Database {
    var lists: seq<ListRow>
    var rows: seq<DomainRow>

    constructor ()
      ensures Valid() && Abstract() == State([], map[])
    {
      lists, rows := [], [];
    }

    /** The key and uniqueness constraints of both tables. */
    ghost predicate Valid()
      reads this
    {
      DistinctNames(rows) && UniqueLists(lists)
    }

    ghost function Abstract(): State
      reads this
    {
      State(lists, AsMap(rows))
    }

    method AppendSeeds(seeds: seq<(string, string, bool)>)
      modifies this`lists
      ensures lists == Seeded(old(lists), seeds)
    {
      for i := 0 to |seeds|
        invariant lists == Seeded(old(lists), seeds[..i])
      {
        assert seeds[..i + 1][..i] == seeds[..i];
        var s := seeds[i];
        lists := lists + [ListRow(MaxId(lists) + 1, s.0, "", s.1, true, true, s.2, 0)];
      }
      assert seeds[..|seeds|] == seeds;
    }

    /** DB::init: seeds the lists, but only when there are none. */
    method Init()
      requires Valid()
      modifies this`lists
      ensures Valid()
      ensures lists == if old(lists) == [] then Seeded([], SEEDS) else old(lists)
    {
      if |lists| == 0 {
        AppendSeeds(SEEDS);
        SeedsUnique();
      }
    }

    predicate Stored(name: string)
      reads this
    {
      exists d :: d in rows && d.name == name
    }

    /** Runs the statement for one bound name. */
    method DeleteUnlessWhitelisted(name: string)
      requires Valid()
      modifies this`rows
      ensures Valid()
      ensures AsMap(rows) == Dropped(AsMap(old(rows)), name, WhitelistIds(lists))
    {
      DeleteNameRefines(rows, name, WhitelistIds(lists));
      rows := DeleteName(rows, name, WhitelistIds(lists));
    }

    /** INSERT OR IGNORE INTO domains: an existing name is left alone, an unknown list is a foreign-key error. */
    method InsertOrIgnore(name: string, listId: int) returns (ok: bool)
      requires Valid()
      modifies this`rows
      ensures Valid()
      ensures ok <==> name in AsMap(old(rows)) || HasId(lists, listId)
      ensures AsMap(rows) ==
              if ok && name !in AsMap(old(rows)) then AsMap(old(rows))[name := listId] else AsMap(old(rows))
    {
      AsMapEntries(rows);
      ok := Stored(name) || HasId(lists, listId);
      if ok && !Stored(name) {
        AppendRefines(rows, DomainRow(name, listId));
        rows := rows + [DomainRow(name, listId)];
      }
    }

    /** INSERT OR REPLACE INTO domains: a null list violates NOT NULL, an unknown one the foreign key. */
    method InsertOrReplace(name: string, listId: Option<int>) returns (ok: bool)
      requires Valid()
      modifies this`rows
      ensures Valid()
      ensures ok <==> listId.Some? && HasId(lists, listId.value)
      ensures AsMap(rows) == if ok then AsMap(old(rows))[name := listId.value] else AsMap(old(rows))
    {
      ok := listId.Some? && HasId(lists, listId.value);
      if ok {
        DeleteNameRefines(rows, name, {});
        rows := DeleteName(rows, name, {});
        AppendRefines(rows, DomainRow(name, listId.value));
        rows := rows + [DomainRow(name, listId.value)];
      }
    }

    /** DELETE FROM domain_lists, with the cascade the foreign key asks for. */
    method DeleteListRow(name: string)
      requires Valid()
      modifies this
      ensures Valid()
      ensures lists == DeleteList(old(lists), name)
      ensures AsMap(rows) == Disowned(AsMap(old(rows)), set l | l in old(lists) && l.name == name :: l.id)
    {
      var gone := set l | l in lists && l.name == name :: l.id;
      DeleteCascadeRefines(rows, gone);
      rows := DeleteCascade(rows, gone);
      DeleteListUnique(lists, name);
      lists := DeleteList(lists, name);
    }
  }
}
