/** How long a whitelisted name stays whitelisted, and when unblocking a name has an effect at all. */
module Whitelisting {
  import opened Tables
  import opened Blocklist
  import opened Runs
  import opened Queries

  /** The seeded whitelist is still there. */
  ghost predicate HasWhitelist(st: State) {
    exists l :: l in st.lists && l.name == WHITELIST && l.isWhitelist
  }

  /** The two operations that take a name out of the whitelist, told from their arguments alone. */
  predicate Evicts(op: Op, name: string) {
    || (op.RemoveList? && op.name == WHITELIST)
    || (op.ImportList? && ListName(op.lst.name) != WHITELIST && name in NamesOf(op.lst.domains))
  }

  /** Blocked means what it says: get_blocked returns a row for the name, and for no other name. */
  lemma BlockedIsReturned(lists: seq<ListRow>, rows: seq<DomainRow>, name: string)
    requires UniqueLists(lists) && DistinctNames(rows)
    ensures Blocked(State(lists, AsMap(rows)), name) <==>
            exists r :: r in OrderByName(Join(lists, rows, ActiveBlocked)) && r.name == name
  {
    OrderedResults(lists, rows, ActiveBlocked);
    AsMapEntries(rows);
    if Blocked(State(lists, AsMap(rows)), name) {
      var d := DomainRow(name, AsMap(rows)[name]);
      var l :| l in lists && l.id == d.listId && l.active && !l.isWhitelist;
      assert Joins(ActiveBlocked, l, d) && IsResult(lists, rows, ActiveBlocked, Joined(l, d));
    }
    if r :| r in OrderByName(Join(lists, rows, ActiveBlocked)) && r.name == name {
      var d := DomainRow(r.name, r.listId);
      var l :| l in lists && Joins(ActiveBlocked, l, d) && r == Joined(l, d);
    }
  }

  lemma WhitelistId(st: State)
    requires Invariant(st) && HasWhitelist(st)
    ensures HasList(st.lists, WHITELIST) && WhitelistIds(st.lists) == {IdOf(st.lists, WHITELIST)}
  {
    var l :| l in st.lists && l.name == WHITELIST && l.isWhitelist;
    SameRow(st.lists, l, FindList(st.lists, WHITELIST).value);
    forall id | id in WhitelistIds(st.lists) ensures id == l.id {
      var k :| k in st.lists && k.isWhitelist && k.id == id;
      SameRow(st.lists, k, l);
    }
  }

  lemma WhitelistedHasWhitelist(st: State, name: string)
    requires Invariant(st) && Whitelisted(st, name)
    ensures HasWhitelist(st)
  {
    var l :| l in st.lists && l.isWhitelist && l.id == st.domains[name];
    assert WellFormedList(l);
  }

  lemma WhitelistedNotBlocked(st: State, name: string)
    requires Invariant(st) && Whitelisted(st, name)
    ensures !Blocked(st, name)
  {
    var l :| l in st.lists && l.isWhitelist && l.id == st.domains[name];
    if Blocked(st, name) {
      var k :| k in st.lists && k.id == st.domains[name] && k.active && !k.isWhitelist;
      SameRow(st.lists, k, l);
    }
  }

  lemma SameIdsKeepWhitelist(st: State, after: State)
    requires Invariant(st) && Invariant(after) && HasWhitelist(st)
    requires WhitelistIds(after.lists) == WhitelistIds(st.lists)
    ensures HasWhitelist(after)
  {
    WhitelistId(st);
    var l :| l in after.lists && l.isWhitelist && l.id == IdOf(st.lists, WHITELIST);
    assert WellFormedList(l);
  }

  lemma RemoveKeepsWhitelistIds(st: State, name: string)
    requires Invariant(st) && name != WHITELIST
    ensures WhitelistIds(Remove(st, name).lists) == WhitelistIds(st.lists)
  {
    forall l | l in st.lists && l.isWhitelist ensures l in Remove(st, name).lists {
      assert WellFormedList(l);
    }
  }

  lemma ImportKeepsWhitelistIds(st: State, lst: DomainList, custom: bool, now: int)
    requires Invariant(st)
    ensures WhitelistIds(Import(st, lst, custom, now).lists) == WhitelistIds(st.lists)
  {
    InsertListInvariant(st, lst.name, lst.url, TextOf(lst.description), custom);
    var ready := Created(st, lst.name, lst.url, TextOf(lst.description), custom);
    SameKeysIds(ready.lists, Import(st, lst, custom, now).lists);
  }

  /** Only removing WHITELIST changes which ids are whitelists. */
  lemma StepWhitelistIds(valid: string -> bool, st: State, op: Op)
    requires Invariant(st) && HasWhitelist(st) && !(op.RemoveList? && op.name == WHITELIST)
    ensures WhitelistIds(Step(valid, st, op).lists) == WhitelistIds(st.lists)
    ensures HasWhitelist(Step(valid, st, op))
  {
    match op {
      case OpenDatabase =>
      case CreateList(name, url, description, custom) => InsertListInvariant(st, name, url, description, custom);
      case ImportList(lst, custom, now) => ImportKeepsWhitelistIds(st, lst, custom, now);
      case BlockNames(names, listId) => InsertListInvariant(st, CUSTOM, "", "Custom list", true);
      case UnblockNames(names) =>
      case RemoveList(name) => RemoveKeepsWhitelistIds(st, name);
      case EnableList(name, enabled) => SameKeysIds(st.lists, SetActive(st.lists, name, enabled));
    }
    StepInvariant(valid, st, op);
    SameIdsKeepWhitelist(st, Step(valid, st, op));
  }

  lemma ImportTarget(st: State, lst: DomainList, custom: bool)
    requires Invariant(st) && HasWhitelist(st)
    ensures var ready := Created(st, lst.name, lst.url, TextOf(lst.description), custom);
            IdOf(ready.lists, ListName(lst.name)) in WhitelistIds(st.lists) <==> ListName(lst.name) == WHITELIST
  {
    var ready := Created(st, lst.name, lst.url, TextOf(lst.description), custom);
    InsertListInvariant(st, lst.name, lst.url, TextOf(lst.description), custom);
    SameIdsKeepWhitelist(st, ready);
    WhitelistId(ready);
    SameRowIffName(ready.lists, FindList(ready.lists, ListName(lst.name)).value,
                   FindList(ready.lists, WHITELIST).value);
  }

  lemma SameRowIffName(lists: seq<ListRow>, a: ListRow, b: ListRow)
    requires UniqueLists(lists) && a in lists && b in lists
    ensures a.id == b.id <==> a.name == b.name
  {
    if a.id == b.id || a.name == b.name {
      SameRow(lists, a, b);
    }
  }

  lemma ImportEviction(valid: string -> bool, st: State, op: Op, name: string)
    requires Invariant(st) && Whitelisted(st, name) && op.ImportList? && HasWhitelist(st)
    ensures Whitelisted(Step(valid, st, op), name) <==> !Evicts(op, name)
  {
    ImportKeepsWhitelistIds(st, op.lst, op.custom, op.now);
    ImportTarget(st, op.lst, op.custom);
  }

  lemma RemoveEviction(st: State, other: string, name: string)
    requires Invariant(st) && Whitelisted(st, name)
    ensures Whitelisted(Remove(st, other), name) <==> other != WHITELIST
  {
    var l :| l in st.lists && l.isWhitelist && l.id == st.domains[name];
    assert WellFormedList(l);
    forall k | k in st.lists && k.name == other ensures k.id == l.id <==> other == WHITELIST {
      SameRowIffName(st.lists, k, l);
    }
    if other != WHITELIST {
      RemoveKeepsWhitelistIds(st, other);
    }
  }

  lemma BlockEviction(valid: string -> bool, st: State, names: seq<string>, listId: int, name: string)
    requires Invariant(st) && Whitelisted(st, name)
    ensures Whitelisted(Block(valid, st, names, listId).0, name)
  {
    InsertListInvariant(st, CUSTOM, "", "Custom list", true);
  }

  lemma UnblockEviction(valid: string -> bool, st: State, names: seq<string>, name: string)
    requires Invariant(st) && Whitelisted(st, name)
    ensures Whitelisted(Unblock(valid, st, names).0, name)
  {
    WhitelistedHasWhitelist(st, name);
    WhitelistId(st);
  }

  lemma CreateEviction(st: State, other: string, url: string, description: string, custom: bool, name: string)
    requires Invariant(st) && Whitelisted(st, name)
    ensures Whitelisted(Created(st, other, url, description, custom), name)
  {
    InsertListInvariant(st, other, url, description, custom);
  }

  lemma EnableEviction(st: State, other: string, enabled: bool, name: string)
    requires Invariant(st) && Whitelisted(st, name)
    ensures Whitelisted(SetEnabled(st, other, enabled), name)
  {
    SameKeysIds(st.lists, SetActive(st.lists, other, enabled));
  }

  /** One step evicts a whitelisted name exactly when its arguments say so. */
  lemma EvictionIsExact(valid: string -> bool, st: State, op: Op, name: string)
    requires Invariant(st) && Whitelisted(st, name)
    ensures Whitelisted(Step(valid, st, op), name) <==> !Evicts(op, name)
  {
    match op {
      case OpenDatabase =>
      case CreateList(other, url, description, custom) => CreateEviction(st, other, url, description, custom, name);
      case ImportList(lst, custom, now) => WhitelistedHasWhitelist(st, name); ImportEviction(valid, st, op, name);
      case BlockNames(names, listId) => BlockEviction(valid, st, names, listId, name);
      case UnblockNames(names) => UnblockEviction(valid, st, names, name);
      case RemoveList(other) => RemoveEviction(st, other, name);
      case EnableList(other, enabled) => EnableEviction(st, other, enabled, name);
    }
  }

  /** A whitelisted name is whitelisted at every point of a run exactly when no operation of the run evicts it. */
  lemma WhitelistedThroughout(valid: string -> bool, st: State, ops: seq<Op>, name: string)
    requires Invariant(st) && Whitelisted(st, name)
    ensures (forall k :: 0 <= k <= |ops| ==> Whitelisted(Run(valid, st, ops[..k]), name))
       <==> (forall op :: op in ops ==> !Evicts(op, name))
  {
    if forall op :: op in ops ==> !Evicts(op, name) {
      forall k | 0 <= k <= |ops| ensures Whitelisted(Run(valid, st, ops[..k]), name) {
        assert forall op :: op in ops[..k] ==> op in ops;
        UnevictedStays(valid, st, ops[..k], name);
      }
    } else {
      var k :| 0 <= k < |ops| && Evicts(ops[k], name);
      assert ops[..k + 1][..k] == ops[..k];
      RunInvariant(valid, st, ops[..k]);
      if Whitelisted(Run(valid, st, ops[..k]), name) {
        EvictionIsExact(valid, Run(valid, st, ops[..k]), ops[k], name);
        assert !Whitelisted(Run(valid, st, ops[..k + 1]), name);
      }
    }
  }

  lemma {:induction false} UnevictedStays(valid: string -> bool, st: State, ops: seq<Op>, name: string)
    requires Invariant(st) && Whitelisted(st, name) && forall op :: op in ops ==> !Evicts(op, name)
    ensures Whitelisted(Run(valid, st, ops), name) && !Blocked(Run(valid, st, ops), name)
  {
    RunInvariant(valid, st, ops);
    if |ops| > 0 {
      var init := ops[..|ops| - 1];
      UnevictedStays(valid, st, init, name);
      RunInvariant(valid, st, init);
      EvictionIsExact(valid, Run(valid, st, init), ops[|ops| - 1], name);
    }
    WhitelistedNotBlocked(Run(valid, st, ops), name);
  }

  lemma {:induction false} RunInvariant(valid: string -> bool, st: State, ops: seq<Op>)
    requires Invariant(st)
    ensures Invariant(Run(valid, st, ops))
    ensures HasWhitelist(st) && (forall op :: op in ops ==> !(op.RemoveList? && op.name == WHITELIST)) ==>
            HasWhitelist(Run(valid, st, ops))
  {
    if |ops| > 0 {
      RunInvariant(valid, st, ops[..|ops| - 1]);
      StepInvariant(valid, Run(valid, st, ops[..|ops| - 1]), ops[|ops| - 1]);
      if HasWhitelist(Run(valid, st, ops[..|ops| - 1])) &&
         !(ops[|ops| - 1].RemoveList? && ops[|ops| - 1].name == WHITELIST) {
        StepWhitelistIds(valid, Run(valid, st, ops[..|ops| - 1]), ops[|ops| - 1]);
      }
    }
  }

  /**
   * From a seeded database whose whitelist is never removed, a valid name once unblocked is not blocked again
   * until an import of another list names it.
   */
  lemma UnblockPersists(valid: string -> bool, before: seq<Op>, names: seq<string>, after: seq<Op>, name: string)
    requires forall op :: op in before ==> !(op.RemoveList? && op.name == WHITELIST)
    requires forall op :: op in after ==> !Evicts(op, name)
    requires name in names && valid(name)
    ensures var st := Run(valid, Step(valid, State([], map[]), OpenDatabase), before);
            var unblocked := Step(valid, st, UnblockNames(names));
            && Whitelisted(Run(valid, unblocked, after), name)
            && !Blocked(Run(valid, unblocked, after), name)
  {
    var seeded := Step(valid, State([], map[]), OpenDatabase);
    SeedsInvariant();
    assert seeded.lists[1].isWhitelist;
    RunInvariant(valid, seeded, before);
    var st := Run(valid, seeded, before);
    WhitelistId(st);
    var unblocked := Step(valid, st, UnblockNames(names));
    assert name in Wanted(valid, names);
    StepInvariant(valid, st, UnblockNames(names));
    UnevictedStays(valid, unblocked, after, name);
  }

  /**
   * When unblocking works: after it, a valid name is still blocked exactly when there was no list to move it to and it
   * was blocked before, or the list called WHITELIST is an active list that is not really a whitelist.
   */
  lemma UnblockIsEffective(valid: string -> bool, st: State, names: seq<string>, name: string)
    requires Invariant(st) && name in names && valid(name)
    ensures var home := FindList(st.lists, WHITELIST);
            Blocked(Unblock(valid, st, names).0, name) <==>
            if home.None? then Blocked(st, name) else home.value.active && !home.value.isWhitelist
  {
    assert name in Wanted(valid, names);
    var home := FindList(st.lists, WHITELIST);
    var after := Unblock(valid, st, names).0;
    if home.Some? && Blocked(after, name) {
      var l :| l in st.lists && l.id == home.value.id && l.active && !l.isWhitelist;
      SameRow(st.lists, l, home.value);
    }
  }

  /**
   * The failing case of that announcement: with a real whitelist a name unblocked and blocked in one command line ends
   * up whitelisted, because blocking never moves a whitelisted name.
   */
  lemma ConflictingNameStaysWhitelisted(valid: string -> bool, st: State, unblock: seq<string>, block: seq<string>,
                                        name: string)
    requires Invariant(st) && HasWhitelist(st) && name in unblock && valid(name)
    ensures var after := Block(valid, Unblock(valid, st, unblock).0, block, 0).0;
            Whitelisted(after, name) && !Blocked(after, name)
  {
    WhitelistId(st);
    var unblocked := Unblock(valid, st, unblock).0;
    assert name in Wanted(valid, unblock);
    StepInvariant(valid, st, UnblockNames(unblock));
    BlockInvariant(valid, unblocked, block, 0);
    BlockEviction(valid, unblocked, block, 0, name);
    WhitelistedNotBlocked(Block(valid, unblocked, block, 0).0, name);
  }

  /** Without a real whitelist no name is whitelisted, and unblocking does not change that. */
  lemma NoWhitelistNoHold(valid: string -> bool, st: State, names: seq<string>)
    requires Invariant(st) && !HasWhitelist(st)
    ensures Unblock(valid, st, names).0.lists == st.lists && Invariant(Unblock(valid, st, names).0)
    ensures WhitelistIds(st.lists) == {}
  {
    StepInvariant(valid, st, UnblockNames(names));
    forall l | l in st.lists ensures !l.isWhitelist {
      assert WellFormedList(l);
    }
  }

  /** Where block_domains puts its names: an enabled list exactly when CUSTOM is missing, and so created, or enabled. */
  lemma CustomTarget(st: State)
    requires Invariant(st)
    ensures var ready := Ready(st, 0);
            var home := FindList(ready.lists, CUSTOM);
            && Invariant(ready) && ready.domains == st.domains && home.Some? && home.value.id == Target(st, 0)
            && (home.value.active <==> FindList(st.lists, CUSTOM).Some? ==> FindList(st.lists, CUSTOM).value.active)
            && !home.value.isWhitelist
  {
    InsertListInvariant(st, CUSTOM, "", "Custom list", true);
    if !HasList(st.lists, CUSTOM) {
      FindAppended(st.lists, Ready(st, 0).lists[|st.lists|]);
    }
    assert WellFormedList(FindList(Ready(st, 0).lists, CUSTOM).value);
  }

  /** A name that no whitelist holds is blocked by a block into list 0 exactly when that list is enabled. */
  lemma BlockIntoCustom(valid: string -> bool, st: State, names: seq<string>, name: string)
    requires Invariant(st) && name in names && valid(name) && WhitelistIds(st.lists) == {}
    ensures Blocked(Block(valid, st, names, 0).0, name) <==>
            (FindList(st.lists, CUSTOM).Some? ==> FindList(st.lists, CUSTOM).value.active)
  {
    CustomTarget(st);
    InsertListInvariant(st, CUSTOM, "", "Custom list", true);
    var ready := Ready(st, 0);
    var home := FindList(ready.lists, CUSTOM).value;
    assert name in NotWhitelisted(ready, Wanted(valid, names));
    var after := Block(valid, st, names, 0).0;
    assert after.lists == ready.lists && after.domains[name] == home.id;
    if l :| l in ready.lists && l.id == home.id && l.active && !l.isWhitelist {
      SameRow(ready.lists, l, home);
    }
  }

  /**
   * When the announcement made for a name given to both options is true: it ends up blocked exactly when the store has
   * no real whitelist and the CUSTOM list is missing or enabled.
   */
  lemma ConflictOutcome(valid: string -> bool, st: State, unblock: seq<string>, block: seq<string>, name: string)
    requires Invariant(st) && name in unblock && name in block && valid(name)
    ensures Blocked(Block(valid, Unblock(valid, st, unblock).0, block, 0).0, name) <==>
            !HasWhitelist(st) && (FindList(st.lists, CUSTOM).Some? ==> FindList(st.lists, CUSTOM).value.active)
  {
    if HasWhitelist(st) {
      ConflictingNameStaysWhitelisted(valid, st, unblock, block, name);
    } else {
      NoWhitelistNoHold(valid, st, unblock);
      BlockIntoCustom(valid, Unblock(valid, st, unblock).0, block, name);
    }
  }

  lemma PlainHomeBlocks(valid: string -> bool, st: State, name: string)
    requires Invariant(st) && valid(name) && HasList(st.lists, WHITELIST)
    requires FindList(st.lists, WHITELIST).value.active && !FindList(st.lists, WHITELIST).value.isWhitelist
    ensures Blocked(Unblock(valid, st, [name]).0, name)
  {
    UnblockIsEffective(valid, st, [name], name);
  }

  /** Whatever the store, a WHITELIST that was removed and created again does not whitelist: unblocking then blocks. */
  lemma RecreatedWhitelistBlocks(valid: string -> bool, st: State, url: string, description: string, custom: bool,
                                 name: string)
    requires Invariant(st) && valid(name)
    ensures var recreated := Created(Remove(st, WHITELIST), WHITELIST, url, description, custom);
            Blocked(Unblock(valid, recreated, [name]).0, name)
  {
    RemoveInvariant(st, WHITELIST);
    RecreatedIsPlain(Remove(st, WHITELIST), url, description, custom);
    PlainHomeBlocks(valid, Created(Remove(st, WHITELIST), WHITELIST, url, description, custom), name);
  }

  lemma RecreatedIsPlain(st: State, url: string, description: string, custom: bool)
    requires Invariant(st) && !HasList(st.lists, WHITELIST)
    ensures var after := Created(st, WHITELIST, url, description, custom);
            var home := FindList(after.lists, WHITELIST);
            Invariant(after) && home.Some? && home.value.active && !home.value.isWhitelist
  {
    InsertListInvariant(st, WHITELIST, url, description, custom);
    FindAppended(st.lists, Created(st, WHITELIST, url, description, custom).lists[|st.lists|]);
  }
}
