/** DomainListManager and DomainManager: statement by statement over the mutable tables. */
module Managers {
  import opened Common
  import opened Tables
  import opened Blocklist
  import opened Queries

  /** DomainManager::get(list_id): all active rows for list 0, in name order, fetched one at a time. */
  method FetchDomains(db: Database, listId: int) returns (result: seq<Domain>)
    requires db.Valid()
    ensures Ascending(result)
    ensures forall r :: r in result <==>
              IsResult(db.lists, db.rows, AnyActive, r) && (listId == 0 || r.listId == listId)
    ensures result == OrderByName(Join(db.lists, db.rows, if listId == 0 then AnyActive else ActiveList(listId)))
  {
    var cursor := OrderByName(Join(db.lists, db.rows, if listId == 0 then AnyActive else ActiveList(listId)));
    result := [];
    for i := 0 to |cursor|
      invariant result == cursor[..i]
    {
      result := result + [cursor[i]];
    }
    OrderedResults(db.lists, db.rows, if listId == 0 then AnyActive else ActiveList(listId));
    forall r ensures IsResult(db.lists, db.rows, ActiveList(listId), r) <==>
                     IsResult(db.lists, db.rows, AnyActive, r) && r.listId == listId {
      ListResult(db.lists, db.rows, listId, r);
    }
  }

  class DomainListManager {
    const db: Database

    constructor (db: Database)
      ensures this.db == db
    {
      this.db := db;
    }

    /** Creates the list unless its name is taken, and answers the id of the list of that name. */
    method Create(name: string, url: string, description: string, custom: bool) returns (id: int)
      requires db.Valid()
      modifies db`lists
      ensures db.Valid()
      ensures db.Abstract() == Created(old(db.Abstract()), name, url, description, custom)
      ensures id == IdOf(db.lists, ListName(name)) && HasId(db.lists, id)
    {
      var listName := if name == "" then CUSTOM else name;
      InsertListUnique(db.lists, listName, url, description, custom);
      db.lists := InsertList(db.lists, listName, url, description, custom);
      var found := FindList(db.lists, listName);
      assert InsertedRow: HasList(db.lists, listName) by {
        if !HasList(old(db.lists), listName) {
          assert db.lists[|db.lists| - 1].name == listName;
        }
      }
      id := found.value.id;
    }

    /** The loop over the names of a list. */
    method ReplaceAll(domains: seq<Domain>, id: int)
      requires db.Valid() && HasId(db.lists, id)
      modifies db`rows
      ensures db.Valid()
      ensures AsMap(db.rows) == Override(AsMap(old(db.rows)), NamesOf(domains), id)
    {
      ghost var m := AsMap(db.rows);
      OverrideStep(m, {}, "", id);
      for i := 0 to |domains|
        invariant db.Valid() && db.lists == old(db.lists)
        invariant AsMap(db.rows) == Override(m, NamesOf(domains[..i]), id)
      {
        var name := domains[i].name;
        OverrideStep(m, NamesOf(domains[..i]), name, id);
        assert NamesOf(domains[..i + 1]) == NamesOf(domains[..i]) + {name};
        var done := db.InsertOrReplace(name, Some(id));
      }
      assert domains[..|domains|] == domains;
    }

    method ImportList(lst: DomainList, custom: bool, now: int) returns (ok: bool)
      requires db.Valid()
      modifies db
      ensures db.Valid() && ok
      ensures db.Abstract() == Import(old(db.Abstract()), lst, custom, now)
    {
      var id := Create(lst.name, lst.url, TextOf(lst.description), custom);
      ReplaceAll(lst.domains, id);
      UpdatesUnique(db.lists, "", true, id, now);
      db.lists := SetMtime(db.lists, id, now);
      ok := true;
    }

    method GetList(name: string, withDomains: bool) returns (lst: DomainList)
      requires db.Valid()
      ensures lst == Exported(db.lists, db.rows, name, withDomains)
      ensures lst.id != 0 && withDomains ==>
              && Ascending(lst.domains)
              && forall r :: r in lst.domains <==> IsResult(db.lists, db.rows, AnyActive, r) && r.listId == lst.id
    {
      lst := NO_LIST;
      var found := FindList(db.lists, name);
      if found.Some? {
        lst := HeaderOf(found.value);
      }
      if lst.id != 0 && withDomains {
        var fetched := FetchDomains(db, lst.id);
        var domains: seq<Domain> := [];
        for i := 0 to |fetched|
          invariant domains == fetched[..i]
        {
          domains := domains + [fetched[i]];
        }
        lst := lst.(domains := domains);
      }
    }

    method RemoveList(name: string) returns (ok: bool)
      requires db.Valid()
      modifies db
      ensures db.Valid() && ok
      ensures db.Abstract() == Remove(old(db.Abstract()), name)
    {
      db.DeleteListRow(name);
      ok := true;
    }

    /** No row comes or goes, and only the active flag of a row of that name can change. */
    method Enable(name: string, enabled: bool) returns (ok: bool)
      requires db.Valid()
      modifies db`lists
      ensures db.Valid() && ok
      ensures |db.lists| == |old(db.lists)|
      ensures forall i :: 0 <= i < |db.lists| ==>
                && (db.lists[i].name == name ==> db.lists[i].active == enabled)
                && (db.lists[i].name != name ==> db.lists[i].active == old(db.lists)[i].active)
                && db.lists[i].(active := true) == old(db.lists)[i].(active := true)
      ensures db.Abstract() == SetEnabled(old(db.Abstract()), name, enabled)
    {
      UpdatesUnique(db.lists, name, enabled, 0, 0);
      db.lists := SetActive(db.lists, name, enabled);
      ok := true;
    }
  }

  /** The rows left once the deletion has run for some of the names. */
  ghost function Cleared(m: map<string, int>, names: seq<string>, kept: set<int>): map<string, int> {
    map n | n in m && !(n in names && m[n] !in kept) :: m[n]
  }

  ghost function Missing(m: map<string, int>, names: seq<string>): set<string> {
    set n | n in names && n !in m
  }

  /** The names of a batch that no whitelist holds. */
  ghost function Movable(m: map<string, int>, names: seq<string>, kept: set<int>): set<string> {
    set n | n in names && !(n in m && m[n] in kept)
  }

  ghost function ToSet(names: seq<string>): set<string> {
    set n | n in names
  }

  lemma ClearedStep(m: map<string, int>, names: seq<string>, kept: set<int>, i: nat)
    requires i < |names|
    ensures Dropped(Cleared(m, names[..i], kept), names[i], kept) == Cleared(m, names[..i + 1], kept)
  {
    assert names[..i + 1] == names[..i] + [names[i]];
  }

  lemma InsertStep(c: map<string, int>, names: seq<string>, listId: int, i: nat)
    requires i < |names|
    ensures Override(c, Missing(c, []), listId) == c
    ensures var before := Override(c, Missing(c, names[..i]), listId);
            Override(c, Missing(c, names[..i + 1]), listId) ==
            if names[i] in before then before else before[names[i] := listId]
    ensures names[i] in Override(c, Missing(c, names[..i]), listId) || names[i] in Missing(c, names)
  {
    assert names[..i + 1] == names[..i] + [names[i]];
  }

  /** Deleting and then inserting-or-ignoring is one override of the names no whitelist holds. */
  lemma DeleteThenInsert(m: map<string, int>, names: seq<string>, kept: set<int>, listId: int)
    ensures Override(Cleared(m, names, kept), Missing(Cleared(m, names, kept), names), listId) ==
            Override(m, Movable(m, names, kept), listId)
  {}

  class DomainManager {
    const db: Database
    const lists: DomainListManager
    const valid: string -> bool

    constructor (db: Database, valid: string -> bool)
      ensures this.db == db && this.valid == valid && fresh(lists) && lists.db == db
    {
      this.db, this.valid := db, valid;
      lists := new DomainListManager(db);
    }

    method FilterValid(names: seq<string>) returns (result: seq<string>)
      ensures result == Accepted(valid, names)
    {
      result := [];
      for i := 0 to |names|
        invariant result == Accepted(valid, names[..i])
      {
        assert names[..i + 1][..i] == names[..i];
        if valid(names[i]) {
          result := result + [names[i]];
        }
      }
      assert names[..|names|] == names;
    }

    /** The two bulk statements of block_domains inside their transaction. */
    method MoveUnlessWhitelisted(names: seq<string>, listId: int) returns (ok: bool)
      requires db.Valid()
      modifies db`rows
      ensures db.Valid()
      ensures var m, kept := AsMap(old(db.rows)), WhitelistIds(db.lists);
              var moved := Movable(m, names, kept);
              && (ok <==> moved == {} || HasId(db.lists, listId))
              && AsMap(db.rows) == if ok then Override(m, moved, listId) else m
    {
      var saved := db.rows;
      ghost var m, kept := AsMap(saved), WhitelistIds(db.lists);
      for i := 0 to |names|
        invariant db.Valid() && AsMap(db.rows) == Cleared(m, names[..i], kept)
      {
        db.DeleteUnlessWhitelisted(names[i]);
        ClearedStep(m, names, kept, i);
      }
      assert names[..|names|] == names;
      ghost var c := Cleared(m, names, kept);
      assert Movable(m, names, kept) == Missing(c, names);
      assert names[..0] == [];
      assert Override(c, Missing(c, []), listId) == c;
      for i := 0 to |names|
        invariant db.Valid() && AsMap(db.rows) == Override(c, Missing(c, names[..i]), listId)
        invariant HasId(db.lists, listId) || forall n :: n in names[..i] ==> n in c
      {
        InsertStep(c, names, listId, i);
        assert names[..i + 1] == names[..i] + [names[i]];
        var done := db.InsertOrIgnore(names[i], listId);
        if !done {
          db.rows := saved;
          return false;
        }
      }
      DeleteThenInsert(m, names, kept, listId);
      ok := true;
    }

    method BlockDomains(names: seq<string>, listId: int) returns (ok: bool)
      requires db.Valid() && lists.db == db
      modifies db
      ensures db.Valid()
      ensures (db.Abstract(), ok) == Block(valid, old(db.Abstract()), names, listId)
    {
      var accepted := FilterValid(names);
      ghost var wanted := Wanted(valid, names);
      assert forall n :: n in wanted <==> n in accepted;
      if |accepted| == 0 {
        assert wanted == {};
        return false;
      }
      assert accepted[0] in wanted;
      var target := listId;
      if target == 0 {
        target := lists.Create(CUSTOM, "", "Custom list", true);
      }
      ghost var ready := db.Abstract();
      ok := MoveUnlessWhitelisted(accepted, target);
      assert NotWhitelisted(ready, wanted) ==
             Movable(ready.domains, accepted, WhitelistIds(ready.lists));
    }

    /** The bulk statement of unblock_domains inside its transaction. */
    method MoveToWhitelist(names: seq<string>) returns (ok: bool)
      requires db.Valid()
      modifies db`rows
      ensures db.Valid()
      ensures ok <==> names == [] || HasList(db.lists, WHITELIST)
      ensures var m := AsMap(old(db.rows));
              AsMap(db.rows) == if ok then Override(m, ToSet(names), IdOf(db.lists, WHITELIST)) else m
    {
      var saved := db.rows;
      ghost var m, id := AsMap(saved), IdOf(db.lists, WHITELIST);
      OverrideStep(m, {}, "", id);
      for i := 0 to |names|
        invariant db.Valid()
        invariant i == 0 || HasList(db.lists, WHITELIST)
        invariant AsMap(db.rows) == Override(m, ToSet(names[..i]), id)
      {
        OverrideStep(m, ToSet(names[..i]), names[i], id);
        assert ToSet(names[..i + 1]) == ToSet(names[..i]) + {names[i]};
        var found := FindList(db.lists, WHITELIST);
        var done := db.InsertOrReplace(names[i], if found.Some? then Some(found.value.id) else None);
        if !done {
          db.rows := saved;
          return false;
        }
      }
      assert names[..|names|] == names;
      ok := true;
    }

    method UnblockDomains(names: seq<string>) returns (ok: bool)
      requires db.Valid()
      modifies db`rows
      ensures db.Valid()
      ensures (db.Abstract(), ok) == Unblock(valid, old(db.Abstract()), names)
    {
      var accepted := FilterValid(names);
      ghost var wanted := Wanted(valid, names);
      assert ToSet(accepted) == wanted;
      if |accepted| == 0 {
        assert wanted == {};
        return false;
      }
      assert accepted[0] in wanted;
      ok := MoveToWhitelist(accepted);
    }

    method Get(listId: int) returns (result: seq<Domain>)
      requires db.Valid()
      ensures Ascending(result)
      ensures forall r :: r in result <==>
                IsResult(db.lists, db.rows, AnyActive, r) && (listId == 0 || r.listId == listId)
      ensures result == OrderByName(Join(db.lists, db.rows, if listId == 0 then AnyActive else ActiveList(listId)))
    {
      result := FetchDomains(db, listId);
    }

    /** The one active row of the name, or a default-constructed record when there is none. */
    method GetByName(name: string) returns (result: Domain)
      requires db.Valid()
      ensures (exists r :: IsResult(db.lists, db.rows, AnyActive, r) && r.name == name) ==>
              IsResult(db.lists, db.rows, AnyActive, result) && result.name == name
      ensures (forall r :: IsResult(db.lists, db.rows, AnyActive, r) ==> r.name != name) ==> result == NO_DOMAIN
    {
      var cursor := Join(db.lists, db.rows, ActiveNamed(name));
      LookupMatchesActive(db.lists, db.rows, name);
      JoinMembers(db.lists, db.rows, AnyActive);
      result := NO_DOMAIN;
      if |cursor| > 0 {
        result := cursor[0];
      }
    }

    method GetBlocked() returns (result: seq<Domain>)
      requires db.Valid()
      ensures Ascending(result)
      ensures forall r :: r in result <==> IsResult(db.lists, db.rows, ActiveBlocked, r)
    {
      var cursor := OrderByName(Join(db.lists, db.rows, ActiveBlocked));
      result := [];
      for i := 0 to |cursor|
        invariant result == cursor[..i]
      {
        result := result + [cursor[i]];
      }
      OrderedResults(db.lists, db.rows, ActiveBlocked);
    }

    /** This query has no ORDER BY: each row comes once, in whatever order. */
    method GetWhitelisted() returns (result: seq<Domain>)
      requires db.Valid()
      ensures DistinctResults(result)
      ensures forall r :: r in result <==> IsResult(db.lists, db.rows, ActiveWhitelisted, r)
    {
      var cursor := Join(db.lists, db.rows, ActiveWhitelisted);
      result := [];
      for i := 0 to |cursor|
        invariant result == cursor[..i]
      {
        result := result + [cursor[i]];
      }
      JoinMembers(db.lists, db.rows, ActiveWhitelisted);
      JoinDistinct(db.lists, db.rows, ActiveWhitelisted);
    }

    /** Despite its name it counts every row, whitelisted and inactive ones included. */
    method CountBlocked() returns (count: nat)
      requires db.Valid()
      ensures count == |db.rows|
      ensures count == |Join(db.lists, db.rows, ActiveBlocked)| <==>
              forall d :: d in db.rows ==> HasPartner(db.lists, d, ActiveBlocked)
    {
      LeftJoinCountsEveryRow(db.lists, db.rows);
      JoinSize(db.lists, db.rows, ActiveBlocked);
      count := LeftJoinCount(db.lists, db.rows, NotWhitelist);
    }
  }
}
