/** Whole runs of the store: the operations, the state each leaves, and what all of them keep. */
module Runs {
  import opened Common
  import opened Tables
  import opened Blocklist
  import opened Managers

  datatype Op =
    | OpenDatabase
    | CreateList(name: string, url: string, description: string, custom: bool)
    | ImportList(lst: DomainList, custom: bool, now: int)
    | BlockNames(names: seq<string>, listId: int)
    | UnblockNames(names: seq<string>)
    | RemoveList(name: string)
    | EnableList(name: string, enabled: bool)

  function Step(valid: string -> bool, st: State, op: Op): State {
    match op
    case OpenDatabase => Init(st)
    case CreateList(name, url, description, custom) => Created(st, name, url, description, custom)
    case ImportList(lst, custom, now) => Import(st, lst, custom, now)
    case BlockNames(names, listId) => Block(valid, st, names, listId).0
    case UnblockNames(names) => Unblock(valid, st, names).0
    case RemoveList(name) => Remove(st, name)
    case EnableList(name, enabled) => SetEnabled(st, name, enabled)
  }

  function Run(valid: string -> bool, st: State, ops: seq<Op>): State {
    if |ops| == 0 then st else Step(valid, Run(valid, st, ops[..|ops| - 1]), ops[|ops| - 1])
  }

  method ExecuteOne(db: Database, lists: DomainListManager, domains: DomainManager, op: Op)
    requires db.Valid() && lists.db == db && domains.db == db && domains.lists.db == db
    modifies db
    ensures db.Valid() && db.Abstract() == Step(domains.valid, old(db.Abstract()), op)
  {
    match op {
      case OpenDatabase => db.Init();
      case CreateList(name, url, description, custom) => var _ := lists.Create(name, url, description, custom);
      case ImportList(lst, custom, now) => var _ := lists.ImportList(lst, custom, now);
      case BlockNames(names, listId) => var _ := domains.BlockDomains(names, listId);
      case UnblockNames(names) => var _ := domains.UnblockDomains(names);
      case RemoveList(name) => var _ := lists.RemoveList(name);
      case EnableList(name, enabled) => var _ := lists.Enable(name, enabled);
    }
  }

  /** The mutable store follows the specification through any sequence of operations. */
  method Execute(db: Database, lists: DomainListManager, domains: DomainManager, ops: seq<Op>)
    requires db.Valid() && lists.db == db && domains.db == db && domains.lists.db == db
    modifies db
    ensures db.Valid()
    ensures db.Abstract() == Run(domains.valid, old(db.Abstract()), ops)
  {
    for i := 0 to |ops|
      invariant db.Valid()
      invariant db.Abstract() == Run(domains.valid, old(db.Abstract()), ops[..i])
    {
      assert ops[..i + 1][..i] == ops[..i];
      ExecuteOne(db, lists, domains, ops[i]);
    }
    assert ops[..|ops|] == ops;
  }

  // ---------------------------------------------------------------- invariants

  ghost predicate WellFormedList(l: ListRow) {
    l.id >= 1 && l.name != "" && (l.isWhitelist ==> l.name == WHITELIST)
  }

  ghost predicate Invariant(st: State) {
    && UniqueLists(st.lists)
    && (forall l :: l in st.lists ==> WellFormedList(l))
    && (forall n :: n in st.domains ==> HasId(st.lists, st.domains[n]))
  }

  /** A changed row keeps its id, name and whitelist flag. */
  ghost predicate SameKeys(a: seq<ListRow>, b: seq<ListRow>) {
    |a| == |b| && forall i :: 0 <= i < |a| ==>
      a[i].id == b[i].id && a[i].name == b[i].name && a[i].isWhitelist == b[i].isWhitelist
  }

  lemma {:induction false} SameKeysFind(a: seq<ListRow>, b: seq<ListRow>, name: string)
    requires SameKeys(a, b)
    ensures IdOf(a, name) == IdOf(b, name) && HasList(a, name) == HasList(b, name)
  {
    if |a| > 0 && a[0].name != name {
      SameKeysFind(a[1..], b[1..], name);
      assert a == [a[0]] + a[1..] && b == [b[0]] + b[1..];
    }
    if |a| > 0 && a[0].name == name {
      assert a[0] in a && b[0] in b;
    }
  }

  lemma SameKeysIds(a: seq<ListRow>, b: seq<ListRow>)
    requires SameKeys(a, b)
    ensures WhitelistIds(a) == WhitelistIds(b)
    ensures forall id :: HasId(a, id) <==> HasId(b, id)
  {
    forall x | x in WhitelistIds(a) ensures x in WhitelistIds(b) {
      var i :| 0 <= i < |a| && a[i].isWhitelist && a[i].id == x;
      assert b[i] in b;
    }
    forall x | x in WhitelistIds(b) ensures x in WhitelistIds(a) {
      var i :| 0 <= i < |b| && b[i].isWhitelist && b[i].id == x;
      assert a[i] in a;
    }
    forall x | HasId(a, x) ensures HasId(b, x) {
      var i :| 0 <= i < |a| && a[i].id == x;
      assert b[i] in b;
    }
    forall x | HasId(b, x) ensures HasId(a, x) {
      var i :| 0 <= i < |b| && b[i].id == x;
      assert a[i] in a;
    }
  }

  lemma SameKeysInvariant(st: State, lists: seq<ListRow>)
    requires Invariant(st) && SameKeys(st.lists, lists)
    ensures Invariant(st.(lists := lists))
  {
    SameKeysIds(st.lists, lists);
    forall l | l in lists ensures WellFormedList(l) {
      var i :| 0 <= i < |lists| && lists[i] == l;
      assert WellFormedList(st.lists[i]);
    }
  }

  lemma InsertListInvariant(st: State, name: string, url: string, description: string, custom: bool)
    requires Invariant(st)
    ensures var after := Created(st, name, url, description, custom);
            && Invariant(after)
            && HasList(after.lists, ListName(name))
            && WhitelistIds(after.lists) == WhitelistIds(st.lists)
  {
    var after := Created(st, name, url, description, custom);
    if HasList(st.lists, ListName(name)) {
      assert after == st;
    } else {
      var row := after.lists[|st.lists|];
      assert after.lists == st.lists + [row];
      assert row in after.lists;
      InsertListUnique(st.lists, ListName(name), url, description, custom);
      forall n | n in st.domains ensures HasId(after.lists, st.domains[n]) {
        var l :| l in st.lists && l.id == st.domains[n];
        assert l in after.lists;
      }
      assert forall l :: l in after.lists <==> l in st.lists || l == row;
    }
  }

  lemma SeedsInvariant()
    ensures Seeded([], SEEDS) == [
      ListRow(1, CUSTOM, "", "Custom, uncategorized list", true, true, false, 0),
      ListRow(2, WHITELIST, "", "Custom, default whitelist", true, true, true, 0)]
    ensures Invariant(State(Seeded([], SEEDS), map[]))
  {
    SeededRows();
  }

  lemma OverrideInvariant(st: State, names: set<string>, listId: int)
    requires Invariant(st) && (names == {} || HasId(st.lists, listId))
    ensures Invariant(st.(domains := Override(st.domains, names, listId)))
  {}

  lemma RemoveInvariant(st: State, name: string)
    requires Invariant(st)
    ensures Invariant(Remove(st, name))
  {
    var after := Remove(st, name);
    DeleteListUnique(st.lists, name);
    forall n | n in after.domains ensures HasId(after.lists, after.domains[n]) {
      var l :| l in st.lists && l.id == st.domains[n];
      assert l.name != name;
      assert l in after.lists;
    }
  }

  lemma IdOfIsId(lists: seq<ListRow>, name: string)
    requires HasList(lists, name)
    ensures HasId(lists, IdOf(lists, name))
  {}

  lemma ImportInvariant(st: State, lst: DomainList, custom: bool, now: int)
    requires Invariant(st)
    ensures Invariant(Import(st, lst, custom, now))
  {
    InsertListInvariant(st, lst.name, lst.url, TextOf(lst.description), custom);
    var ready := Created(st, lst.name, lst.url, TextOf(lst.description), custom);
    var id := IdOf(ready.lists, ListName(lst.name));
    var moved := ready.(domains := Override(ready.domains, NamesOf(lst.domains), id));
    IdOfIsId(ready.lists, ListName(lst.name));
    OverrideInvariant(ready, NamesOf(lst.domains), id);
    SameKeysInvariant(moved, SetMtime(ready.lists, id, now));
  }

  lemma BlockInvariant(valid: string -> bool, st: State, names: seq<string>, listId: int)
    requires Invariant(st)
    ensures Invariant(Block(valid, st, names, listId).0)
  {
    InsertListInvariant(st, CUSTOM, "", "Custom list", true);
    var moved := NotWhitelisted(Ready(st, listId), Wanted(valid, names));
    if moved == {} || HasId(Ready(st, listId).lists, Target(st, listId)) {
      OverrideInvariant(Ready(st, listId), moved, Target(st, listId));
    }
  }

  /** Every operation keeps the invariant. */
  lemma StepInvariant(valid: string -> bool, st: State, op: Op)
    requires Invariant(st)
    ensures Invariant(Step(valid, st, op))
  {
    match op {
      case OpenDatabase =>
        SeedsInvariant();
        if st.lists == [] {
          assert forall n :: n !in st.domains;
          assert Init(st) == State(Seeded([], SEEDS), map[]);
        }
      case CreateList(name, url, description, custom) =>
        InsertListInvariant(st, name, url, description, custom);
      case ImportList(lst, custom, now) =>
        ImportInvariant(st, lst, custom, now);
      case BlockNames(names, listId) =>
        BlockInvariant(valid, st, names, listId);
      case UnblockNames(names) =>
        if HasList(st.lists, WHITELIST) {
          IdOfIsId(st.lists, WHITELIST);
          OverrideInvariant(st, Wanted(valid, names), IdOf(st.lists, WHITELIST));
        }
      case RemoveList(name) =>
        RemoveInvariant(st, name);
      case EnableList(name, enabled) =>
        SameKeysInvariant(st, SetActive(st.lists, name, enabled));
    }
  }

  /** Every state reached from an empty database file is well formed, and it has at most one whitelist. */
  lemma {:induction false} ReachableInvariant(valid: string -> bool, ops: seq<Op>)
    ensures var st := Run(valid, State([], map[]), ops);
            && Invariant(st)
            && (forall a, b :: a in st.lists && b in st.lists && a.isWhitelist && b.isWhitelist ==> a == b)
  {
    var st := Run(valid, State([], map[]), ops);
    if |ops| > 0 {
      ReachableInvariant(valid, ops[..|ops| - 1]);
      StepInvariant(valid, Run(valid, State([], map[]), ops[..|ops| - 1]), ops[|ops| - 1]);
    }
    forall a, b | a in st.lists && b in st.lists && a.isWhitelist && b.isWhitelist ensures a == b {
      SameRow(st.lists, a, b);
    }
  }

  /** A list that did not exist starts empty, even when its id was used before. */
  lemma NewListIsEmpty(st: State, name: string, url: string, description: string, custom: bool)
    requires Invariant(st) && !HasList(st.lists, ListName(name))
    ensures var after := Created(st, name, url, description, custom);
            && HasList(after.lists, ListName(name))
            && forall n :: n in after.domains ==> after.domains[n] != IdOf(after.lists, ListName(name))
  {
    InsertListInvariant(st, name, url, description, custom);
    var after := Created(st, name, url, description, custom);
    var row := after.lists[|st.lists|];
    assert row in after.lists && FindList(after.lists, ListName(name)).value in after.lists;
    SameRow(after.lists, row, FindList(after.lists, ListName(name)).value);
  }

  lemma DeleteLast(lists: seq<ListRow>, row: ListRow)
    requires !HasList(lists, row.name)
    ensures DeleteList(lists + [row], row.name) == lists
  {
    assert (lists + [row])[..|lists|] == lists;
    assert forall i :: 0 <= i < |lists| ==> lists[i] in lists;
    DeleteAbsent(lists, row.name);
  }

  /** Removing a list that was just created undoes the creation. */
  lemma RemoveUndoesCreate(st: State, name: string, url: string, description: string, custom: bool)
    requires Invariant(st) && name != "" && !HasList(st.lists, name)
    ensures Remove(Created(st, name, url, description, custom), name) == st
  {
    var one := Created(st, name, url, description, custom);
    var row := one.lists[|st.lists|];
    DeleteLast(st.lists, row);
    assert forall l :: l in one.lists <==> l in st.lists || l == row;
    var gone := set l | l in one.lists && l.name == name :: l.id;
    assert gone == {row.id};
    DisownedNothing(st.domains, gone);
  }

  lemma DisownedNothing(m: map<string, int>, ids: set<int>)
    requires forall n :: n in m ==> m[n] !in ids
    ensures Disowned(m, ids) == m
  {}

  /** Ids are indeed reused: after that removal the next list gets the same id. */
  lemma RemovedIdIsReused(st: State, name: string, other: string)
    requires Invariant(st) && name != "" && other != "" && !HasList(st.lists, name) && !HasList(st.lists, other)
    ensures var one := Created(st, name, "", "", false);
            var two := Created(Remove(one, name), other, "", "", false);
            IdOf(two.lists, other) == IdOf(one.lists, name)
  {
    RemoveUndoesCreate(st, name, "", "", false);
    FindAppended(st.lists, Created(st, name, "", "", false).lists[|st.lists|]);
    FindAppended(st.lists, Created(st, other, "", "", false).lists[|st.lists|]);
  }

  lemma {:induction false} FindAppended(lists: seq<ListRow>, row: ListRow)
    requires !HasList(lists, row.name)
    ensures FindList(lists + [row], row.name) == Some(row)
  {
    if |lists| > 0 {
      assert lists[0] in lists;
      assert !HasList(lists[1..], row.name) by {
        assert forall l :: l in lists[1..] ==> l in lists;
      }
      FindAppended(lists[1..], row);
      assert (lists + [row])[1..] == lists[1..] + [row];
    }
  }

  lemma {:induction false} DeleteAbsent(lists: seq<ListRow>, name: string)
    requires forall i :: 0 <= i < |lists| ==> lists[i].name != name
    ensures DeleteList(lists, name) == lists
  {
    if |lists| > 0 {
      DeleteAbsent(lists[..|lists| - 1], name);
      assert lists == lists[..|lists| - 1] + [lists[|lists| - 1]];
    }
  }
}
