/** Batches compose: a batch in two parts is the parts one after the other, whatever the duplicates and the order. */
module Batches {
  import opened Tables
  import opened Blocklist
  import opened Runs

  lemma WantedConcat(valid: string -> bool, a: seq<string>, b: seq<string>)
    ensures Wanted(valid, a + b) == Wanted(valid, a) + Wanted(valid, b)
  {}

  lemma OverrideTwice(m: map<string, int>, a: set<string>, b: set<string>, id: int)
    ensures Override(Override(m, a, id), b, id) == Override(m, a + b, id)
  {}

  /** What one successful or refused block does to each name, the lists it leaves, and when it is refused. */
  lemma BlockPointwise(valid: string -> bool, st: State, names: seq<string>, listId: int, name: string)
    requires Invariant(st)
    ensures var (after, ok) := Block(valid, st, names, listId);
            var moves := name in names && valid(name) && !Whitelisted(st, name);
            && (!ok ==> after == st)
            && (ok && moves ==> name in after.domains && after.domains[name] == Target(st, listId))
            && (!(ok && moves) ==> (name in after.domains <==> name in st.domains))
            && (!(ok && moves) && name in st.domains ==> after.domains[name] == st.domains[name])
            && (ok <==> && (exists n :: n in names && valid(n))
                        && (listId == 0 || HasId(st.lists, listId) ||
                            forall n :: n in names && valid(n) ==> Whitelisted(st, n)))
  {
    ReadyKeeps(st, listId);
    var moved := NotWhitelisted(Ready(st, listId), Wanted(valid, names));
    assert name in moved <==> name in names && valid(name) && !Whitelisted(st, name);
    assert moved == {} <==> forall n :: n in names && valid(n) ==> n !in moved;
    if Wanted(valid, names) == {} {
      assert forall n :: n in names && valid(n) ==> n in Wanted(valid, names);
    }
  }

  /** Where a successful block puts its names: the list asked for, or the one called CUSTOM, created when missing. */
  lemma BlockHome(valid: string -> bool, st: State, names: seq<string>, listId: int)
    requires Invariant(st) && Block(valid, st, names, listId).1
    ensures var after := Block(valid, st, names, listId).0;
            && (listId != 0 ==> Target(st, listId) == listId && after.lists == st.lists)
            && (listId == 0 ==>
                  && (exists l :: l in after.lists && l.name == "CUSTOM" && l.id == Target(st, listId))
                  && after.lists == if HasList(st.lists, "CUSTOM") then st.lists
                                    else st.lists + [ListRow(Target(st, listId), "CUSTOM", "", "Custom list",
                                                             true, true, false, 0)])
  {
    if listId == 0 && !HasList(st.lists, CUSTOM) {
      FindAppended(st.lists, Ready(st, 0).lists[|st.lists|]);
    } else if listId == 0 {
      assert FindList(st.lists, CUSTOM).value in st.lists;
    }
  }

  /**
   * What an unblock does to each name: it moves to the list called WHITELIST if it is valid and there is one, and
   * stays as it is otherwise; no list changes.
   */
  lemma UnblockPointwise(valid: string -> bool, st: State, names: seq<string>, name: string)
    ensures var (after, ok) := Unblock(valid, st, names);
            var moves := name in names && valid(name) && HasList(st.lists, "WHITELIST");
            && after.lists == st.lists
            && (moves ==> name in after.domains && HomeOf(st.lists, "WHITELIST", after.domains[name]))
            && (!moves ==> (name in after.domains <==> name in st.domains))
            && (!moves && name in st.domains ==> after.domains[name] == st.domains[name])
            && (ok <==> (exists n :: n in names && valid(n)) && HasList(st.lists, "WHITELIST"))
  {
    if n :| n in names && valid(n) {
      assert n in Wanted(valid, names);
    }
  }

  /** Some list of that name has that id. */
  ghost predicate HomeOf(lists: seq<ListRow>, called: string, id: int) {
    exists l :: l in lists && l.name == called && l.id == id
  }

  /**
   * What a creation does: nothing when the name is taken, and otherwise one more list, enabled and no whitelist, with
   * an id above all others. A list without a name is called CUSTOM.
   */
  lemma CreateInFull(st: State, name: string, url: string, description: string, custom: bool)
    ensures var after := Created(st, name, url, description, custom);
            var called := if |name| == 0 then "CUSTOM" else name;
            && after.domains == st.domains
            && (HasList(st.lists, called) ==> after == st)
            && (!HasList(st.lists, called) ==>
                  && |after.lists| == |st.lists| + 1 && after.lists[..|st.lists|] == st.lists
                  && after.lists[|st.lists|] ==
                       ListRow(after.lists[|st.lists|].id, called, url, description, true, custom, false, 0)
                  && after.lists[|st.lists|].id >= 1
                  && forall l :: l in st.lists ==> l.id < after.lists[|st.lists|].id)
  {}

  /** What an import does to each name, valid or not, and to the lists: the one imported gets its time. */
  lemma ImportPointwise(st: State, lst: DomainList, custom: bool, now: int, name: string)
    requires Invariant(st)
    ensures var after := Import(st, lst, custom, now);
            var ready := Created(st, lst.name, lst.url, TextOf(lst.description), custom);
            var called := if |lst.name| == 0 then "CUSTOM" else lst.name;
            var moves := exists d :: d in lst.domains && d.name == name;
            && (moves ==> name in after.domains && HomeOf(after.lists, called, after.domains[name]))
            && (!moves ==> (name in after.domains <==> name in st.domains))
            && (!moves && name in st.domains ==> after.domains[name] == st.domains[name])
            && |after.lists| == |ready.lists| && HasList(after.lists, called)
            && forall i :: 0 <= i < |ready.lists| ==>
                 after.lists[i] ==
                   if ready.lists[i].name == called then ready.lists[i].(mtime := now) else ready.lists[i]
  {
    InsertListInvariant(st, lst.name, lst.url, TextOf(lst.description), custom);
    var ready := Created(st, lst.name, lst.url, TextOf(lst.description), custom);
    var home := FindList(ready.lists, ListName(lst.name)).value;
    var after := Import(st, lst, custom, now);
    var k :| 0 <= k < |ready.lists| && ready.lists[k] == home;
    assert after.lists[k] in after.lists;
    forall i | 0 <= i < |ready.lists| ensures ready.lists[i].id == home.id <==> ready.lists[i].name == home.name {
      assert i != k ==> ready.lists[i].id != home.id && ready.lists[i].name != home.name;
    }
    assert name in NamesOf(lst.domains) <==> exists d :: d in lst.domains && d.name == name;
  }

  /** What a removal does: the list goes, and exactly the names it owned go with it. */
  lemma RemovePointwise(st: State, called: string, name: string)
    requires Invariant(st)
    ensures var after := Remove(st, called);
            && (forall l :: l in after.lists <==> l in st.lists && l.name != called)
            && (name in after.domains <==> name in st.domains && !HomeOf(st.lists, called, st.domains[name]))
            && (name in after.domains ==> after.domains[name] == st.domains[name])
  {}

  /** Creating the CUSTOM list, if that happens, changes no name and no whitelist. */
  lemma ReadyKeeps(st: State, listId: int)
    requires Invariant(st)
    ensures Invariant(Ready(st, listId)) && Ready(st, listId).domains == st.domains
    ensures forall n :: Whitelisted(Ready(st, listId), n) <==> Whitelisted(st, n)
    ensures Ready(Ready(st, listId), listId) == Ready(st, listId)
    ensures Target(Ready(st, listId), listId) == Target(st, listId)
    ensures listId == 0 ==> HasId(Ready(st, listId).lists, Target(st, listId))
  {
    if listId == 0 {
      InsertListInvariant(st, CUSTOM, "", "Custom list", true);
      IdOfIsId(Ready(st, listId).lists, CUSTOM);
    }
  }

  /** The transaction of a block whose target is settled. */
  ghost function Placed(ready: State, wanted: set<string>, target: int): State {
    if HasId(ready.lists, target)
    then ready.(domains := Override(ready.domains, NotWhitelisted(ready, wanted), target))
    else ready
  }

  lemma BlockIsPlaced(valid: string -> bool, st: State, names: seq<string>, listId: int)
    ensures Block(valid, st, names, listId).0 ==
            if Wanted(valid, names) == {} then st
            else Placed(Ready(st, listId), Wanted(valid, names), Target(st, listId))
  {
    assert Override(Ready(st, listId).domains, {}, Target(st, listId)) == Ready(st, listId).domains;
  }

  lemma PlacedConcat(ready: State, a: set<string>, b: set<string>, target: int)
    ensures Placed(Placed(ready, a, target), b, target) == Placed(ready, a + b, target)
  {
    if HasId(ready.lists, target) {
      var first := Placed(ready, a, target);
      assert NotWhitelisted(ready, a + b) == NotWhitelisted(ready, a) + NotWhitelisted(ready, b);
      BlockOverlap(ready.domains, NotWhitelisted(ready, a), NotWhitelisted(ready, b), NotWhitelisted(first, b), target);
    }
  }

  /** The answer to a batch in two parts: a part without a valid name fails on its own, and is otherwise needed. */
  lemma BlockConcatFlag(valid: string -> bool, st: State, a: seq<string>, b: seq<string>, listId: int)
    requires Invariant(st)
    ensures var (first, okA) := Block(valid, st, a, listId);
            var okB := Block(valid, first, b, listId).1;
            Block(valid, st, a + b, listId).1 <==>
              && (okA || okB)
              && (Wanted(valid, a) != {} ==> okA)
              && (Wanted(valid, b) != {} ==> okB)
  {
    ReadyKeeps(st, listId);
  }

  lemma BlockConcat(valid: string -> bool, st: State, a: seq<string>, b: seq<string>, listId: int)
    requires Invariant(st)
    ensures Block(valid, Block(valid, st, a, listId).0, b, listId).0 == Block(valid, st, a + b, listId).0
  {
    WantedConcat(valid, a, b);
    ReadyKeeps(st, listId);
    BlockIsPlaced(valid, st, a, listId);
    BlockIsPlaced(valid, st, a + b, listId);
    var first := Block(valid, st, a, listId).0;
    BlockIsPlaced(valid, first, b, listId);
    var ready, target := Ready(st, listId), Target(st, listId);
    if Wanted(valid, a) == {} {
      assert Wanted(valid, a + b) == Wanted(valid, b);
    } else if Wanted(valid, b) == {} {
      assert Wanted(valid, a + b) == Wanted(valid, a);
    } else {
      assert first.lists == ready.lists;
      assert Ready(first, listId) == first && Target(first, listId) == target;
      PlacedConcat(ready, Wanted(valid, a), Wanted(valid, b), target);
    }
  }

  /** Names the first part already moved may be skipped by the second one. */
  lemma BlockOverlap(m: map<string, int>, ma: set<string>, mb: set<string>, later: set<string>, id: int)
    requires forall n :: n in later ==> n in ma + mb
    requires forall n :: n in mb && n !in ma ==> n in later
    ensures Override(Override(m, ma, id), later, id) == Override(m, ma + mb, id)
  {}

  /** An unblock in two parts succeeds when either part does. */
  lemma UnblockConcat(valid: string -> bool, st: State, a: seq<string>, b: seq<string>)
    ensures var (first, okA) := Unblock(valid, st, a);
            var (after, okB) := Unblock(valid, first, b);
            Unblock(valid, st, a + b) == (after, okA || okB)
  {
    WantedConcat(valid, a, b);
    var wa, wb := Wanted(valid, a), Wanted(valid, b);
    if wa == {} {
      assert wa + wb == wb;
    } else if wb == {} {
      assert wa + wb == wa;
    } else {
      OverrideTwice(st.domains, wa, wb, IdOf(st.lists, WHITELIST));
    }
  }

  lemma MtimeTwice(lists: seq<ListRow>, id: int, t1: int, t2: int)
    ensures SetMtime(SetMtime(lists, id, t1), id, t2) == SetMtime(lists, id, t2)
  {}

  /** A list imported in two parts is the list imported once, at the time of the second part. */
  lemma ImportConcat(st: State, lst: DomainList, a: seq<Domain>, b: seq<Domain>, custom: bool, t1: int, t2: int)
    requires Invariant(st)
    ensures Import(Import(st, lst.(domains := a), custom, t1), lst.(domains := b), custom, t2) ==
            Import(st, lst.(domains := a + b), custom, t2)
  {
    var ready := Created(st, lst.name, lst.url, TextOf(lst.description), custom);
    var name := ListName(lst.name);
    var id := IdOf(ready.lists, name);
    InsertListInvariant(st, lst.name, lst.url, TextOf(lst.description), custom);
    SameKeysFind(ready.lists, SetMtime(ready.lists, id, t1), name);
    MtimeTwice(ready.lists, id, t1, t2);
    assert NamesOf(a + b) == NamesOf(a) + NamesOf(b);
    OverrideTwice(ready.domains, NamesOf(a), NamesOf(b), id);
  }

  /** Importing the same list again only refreshes its modification time. */
  lemma ImportTwice(st: State, lst: DomainList, custom: bool, t1: int, t2: int)
    requires Invariant(st)
    ensures Import(Import(st, lst, custom, t1), lst, custom, t2) == Import(st, lst, custom, t2)
  {
    assert lst.(domains := lst.domains) == lst;
    ImportConcat(st, lst, lst.domains, lst.domains, custom, t1, t2);
    assert NamesOf(lst.domains + lst.domains) == NamesOf(lst.domains);
  }

  /** Imports at different times differ in nothing but the modification time of the list. */
  lemma ImportTimesAgree(st: State, lst: DomainList, custom: bool, t1: int, t2: int)
    requires Invariant(st)
    ensures var a, b := Import(st, lst, custom, t1), Import(st, lst, custom, t2);
            a.domains == b.domains && b.lists == SetMtime(a.lists, IdOf(b.lists, ListName(lst.name)), t2)
  {
    var ready := Created(st, lst.name, lst.url, TextOf(lst.description), custom);
    var id := IdOf(ready.lists, ListName(lst.name));
    SameKeysFind(ready.lists, SetMtime(ready.lists, id, t2), ListName(lst.name));
    MtimeTwice(ready.lists, id, t1, t2);
  }
}
