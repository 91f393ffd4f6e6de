/** The join queries, row by row as SQL defines them, and the order they are returned in. */
module Queries {
  import opened Common
  import opened Tables

  /** The ON and WHERE conditions in use, besides d.list_id = dl.id. */
  datatype Condition =
    | AnyActive
    | ActiveList(id: int)
    | ActiveNamed(name: string)
    | ActiveBlocked
    | ActiveWhitelisted
    | NotWhitelist

  predicate Joins(c: Condition, l: ListRow, d: DomainRow) {
    l.id == d.listId &&
    match c
    case AnyActive => l.active
    case ActiveList(id) => l.active && d.listId == id
    case ActiveNamed(name) => l.active && d.name == name
    case ActiveBlocked => l.active && !l.isWhitelist
    case ActiveWhitelisted => l.active && l.isWhitelist
    case NotWhitelist => !l.isWhitelist
  }

  function Joined(l: ListRow, d: DomainRow): Domain {
    Domain(d.name, d.listId, Some(l.name))
  }

  /** The row or rows the first list contributes. */
  function Head(l: ListRow, d: DomainRow, c: Condition): seq<Domain> {
    if Joins(c, l, d) then [Joined(l, d)] else []
  }

  /** The result rows one domains row contributes: one for each list it joins with. */
  function RowMatches(lists: seq<ListRow>, d: DomainRow, c: Condition): seq<Domain> {
    if |lists| == 0 then []
    else Head(lists[0], d, c) + RowMatches(lists[1..], d, c)
  }

  /** FROM domains d JOIN domain_lists dl ON ... */
  function Join(lists: seq<ListRow>, rows: seq<DomainRow>, c: Condition): seq<Domain> {
    if |rows| == 0 then []
    else Join(lists, rows[..|rows| - 1], c) + RowMatches(lists, rows[|rows| - 1], c)
  }

  /** SELECT COUNT(*) FROM domains d LEFT JOIN domain_lists dl ON ...: a row without a partner still counts once. */
  function LeftJoinCount(lists: seq<ListRow>, rows: seq<DomainRow>, c: Condition): nat {
    if |rows| == 0 then 0
    else
      var partners := |RowMatches(lists, rows[|rows| - 1], c)|;
      LeftJoinCount(lists, rows[..|rows| - 1], c) + if partners == 0 then 1 else partners
  }

  // ---------------------------------------------------------------- ORDER BY d.name ASC

  ghost predicate Sorted(s: seq<Domain>) {
    forall i, j :: 0 <= i < j < |s| ==> !Less(s[j].name, s[i].name)
  }

  ghost predicate Ascending(s: seq<Domain>) {
    forall i, j :: 0 <= i < j < |s| ==> Less(s[i].name, s[j].name)
  }

  ghost predicate DistinctResults(s: seq<Domain>) {
    forall i, j :: 0 <= i < j < |s| ==> s[i].name != s[j].name
  }

  function InsertByName(d: Domain, s: seq<Domain>): seq<Domain> {
    if |s| == 0 || !Less(s[0].name, d.name) then [d] + s else [s[0]] + InsertByName(d, s[1..])
  }

  function OrderByName(s: seq<Domain>): seq<Domain> {
    if |s| == 0 then [] else InsertByName(s[0], OrderByName(s[1..]))
  }

  lemma {:induction false} InsertKeepsRows(d: Domain, s: seq<Domain>)
    ensures multiset(InsertByName(d, s)) == multiset(s) + multiset{d}
  {
    if |s| == 0 || !Less(s[0].name, d.name) {
    } else {
      InsertKeepsRows(d, s[1..]);
      assert s == [s[0]] + s[1..];
    }
  }

  lemma {:induction false} InsertSorts(d: Domain, s: seq<Domain>)
    requires Sorted(s)
    ensures Sorted(InsertByName(d, s))
  {
    if |s| == 0 {
    } else if !Less(s[0].name, d.name) {
      forall j | 0 <= j < |s| ensures !Less(s[j].name, d.name) {
        LessTrichotomy(s[0].name, d.name);
        LessTrichotomy(s[0].name, s[j].name);
        if Less(s[j].name, d.name) && s[0].name != d.name {
          if s[0].name != s[j].name {
            LessTransitive(s[0].name, s[j].name, d.name);
          }
        }
      }
    } else {
      InsertSorts(d, s[1..]);
      var rest := InsertByName(d, s[1..]);
      InsertKeepsRows(d, s[1..]);
      LessTrichotomy(s[0].name, d.name);
      forall j | 0 <= j < |rest| ensures !Less(rest[j].name, s[0].name) {
        assert rest[j] in multiset(rest);
        assert rest[j] == d || rest[j] in s[1..];
      }
    }
  }

  /** Ordering loses and invents no row. */
  lemma {:induction false} OrderKeepsRows(s: seq<Domain>)
    ensures multiset(OrderByName(s)) == multiset(s)
    ensures Sorted(OrderByName(s))
  {
    if |s| > 0 {
      OrderKeepsRows(s[1..]);
      InsertKeepsRows(s[0], OrderByName(s[1..]));
      InsertSorts(s[0], OrderByName(s[1..]));
      assert s == [s[0]] + s[1..];
    }
  }

  lemma {:induction false} SameRowsSameLength(a: seq<Domain>, b: seq<Domain>)
    requires multiset(a) == multiset(b)
    ensures |a| == |b| && forall d :: d in a <==> d in b
  {
    assert |multiset(a)| == |a| && |multiset(b)| == |b|;
    assert forall d :: d in a <==> d in multiset(a);
    assert forall d :: d in b <==> d in multiset(b);
  }

  /** Among rows of distinct names the order is strict. */
  lemma OrderAscends(s: seq<Domain>)
    requires DistinctResults(s)
    ensures Ascending(OrderByName(s))
  {
    OrderKeepsRows(s);
    var r := OrderByName(s);
    forall i, j | 0 <= i < j < |r| ensures Less(r[i].name, r[j].name) {
      LessTrichotomy(r[i].name, r[j].name);
      if r[i].name == r[j].name {
        SameRowsSameLength(s, r);
        assert r[i] in r && r[j] in r;
        var k :| 0 <= k < |s| && s[k] == r[i];
        var m :| 0 <= m < |s| && s[m] == r[j];
        assert k == m;
        TwiceInMultiset(r, i, j);
        OnceInMultiset(s, k);
      }
    }
  }

  lemma TwiceInMultiset(s: seq<Domain>, i: nat, j: nat)
    requires i < j < |s| && s[i] == s[j]
    ensures multiset(s)[s[i]] >= 2
  {
    assert s == s[..i] + [s[i]] + s[i + 1..j] + [s[j]] + s[j + 1..];
  }

  lemma OnceInMultiset(s: seq<Domain>, k: nat)
    requires k < |s| && DistinctResults(s)
    ensures multiset(s)[s[k]] == 1
  {
    assert s == s[..k] + [s[k]] + s[k + 1..];
    assert s[k] !in s[..k] && s[k] !in s[k + 1..];
  }

  /** A row of domain_lists as a record, without its names. */
  function HeaderOf(l: ListRow): DomainList {
    DomainList(l.id, l.name, l.url, Some(l.description), l.active, l.custom, l.mtime, [])
  }

  /** What get_domain_lists and the domains query give for a named list; a missing list gives the default record. */
  function Exported(lists: seq<ListRow>, rows: seq<DomainRow>, name: string, withDomains: bool): DomainList {
    var found := FindList(lists, name);
    if found.None? then NO_LIST
    else
      var header := HeaderOf(found.value);
      if withDomains && header.id != 0
      then header.(domains := OrderByName(Join(lists, rows, ActiveList(header.id))))
      else header
  }

  /** The record of a stored list carries its whole row. */
  lemma ExportedHeader(lists: seq<ListRow>, rows: seq<DomainRow>, name: string, withDomains: bool)
    requires UniqueLists(lists)
    ensures var lst := Exported(lists, rows, name, withDomains);
            && (withDomains || lst.domains == [])
            && (!HasList(lists, name) ==> lst == DomainList(0, "", "", Some(""), false, false, 0, []))
            && forall l :: l in lists && l.name == name ==>
              && lst.id == l.id && lst.name == name && lst.url == l.url && lst.description == Some(l.description)
              && lst.active == l.active && lst.custom == l.custom && lst.mtime == l.mtime
  {
    forall l | l in lists && l.name == name ensures l == FindList(lists, name).value {
      SameRow(lists, l, FindList(lists, name).value);
    }
  }

  // ---------------------------------------------------------------- what the joins return

  ghost predicate IsMatch(lists: seq<ListRow>, d: DomainRow, c: Condition, r: Domain) {
    exists l :: l in lists && Joins(c, l, d) && r == Joined(l, d)
  }

  /** Ids are unique, so a row joins with at most one list. */
  lemma {:induction false} RowMatchesAtMostOne(lists: seq<ListRow>, d: DomainRow, c: Condition)
    requires UniqueLists(lists)
    ensures |RowMatches(lists, d, c)| <= 1
    ensures forall r :: r in RowMatches(lists, d, c) <==> IsMatch(lists, d, c, r)
    ensures |RowMatches(lists, d, c)| == 1 <==> exists l :: l in lists && Joins(c, l, d)
  {
    if |lists| > 0 {
      RowMatchesAtMostOne(lists[1..], d, c);
      assert forall l :: l in lists <==> l == lists[0] || l in lists[1..];
      if Joins(c, lists[0], d) {
        forall l | l in lists[1..] ensures l.id != lists[0].id {
          var i :| 1 <= i < |lists| && lists[i] == l;
        }
      }
    }
  }

  ghost predicate IsResult(lists: seq<ListRow>, rows: seq<DomainRow>, c: Condition, r: Domain) {
    DomainRow(r.name, r.listId) in rows && IsMatch(lists, DomainRow(r.name, r.listId), c, r)
  }

  /** The rows of a join. */
  lemma {:induction false} JoinMembers(lists: seq<ListRow>, rows: seq<DomainRow>, c: Condition)
    requires UniqueLists(lists)
    ensures forall r :: r in Join(lists, rows, c) <==> IsResult(lists, rows, c, r)
  {
    if |rows| > 0 {
      var init, last := rows[..|rows| - 1], rows[|rows| - 1];
      JoinMembers(lists, init, c);
      RowMatchesAtMostOne(lists, last, c);
      assert forall d :: d in rows <==> d in init || d == last;
      forall r
        ensures r in RowMatches(lists, last, c) <==>
                DomainRow(r.name, r.listId) == last && IsResult(lists, rows, c, r)
      {
        assert last in rows;
        if IsMatch(lists, last, c, r) {
          var l :| l in lists && Joins(c, l, last) && r == Joined(l, last);
        }
      }
    }
  }

  /** Each name appears once. */
  lemma {:induction false} JoinDistinct(lists: seq<ListRow>, rows: seq<DomainRow>, c: Condition)
    requires UniqueLists(lists) && DistinctNames(rows)
    ensures DistinctResults(Join(lists, rows, c))
  {
    if |rows| > 0 {
      var init, last := rows[..|rows| - 1], rows[|rows| - 1];
      LastRow(rows);
      AsMapEntries(init);
      JoinDistinct(lists, init, c);
      JoinMembers(lists, init, c);
      RowMatchesAtMostOne(lists, last, c);
      var a, b := Join(lists, init, c), RowMatches(lists, last, c);
      forall i, j | 0 <= i < |a| && 0 <= j < |b| ensures a[i].name != b[j].name {
        assert a[i] in a && b[j] in b;
        assert DomainRow(a[i].name, a[i].listId) in init;
      }
    }
  }

  ghost predicate HasPartner(lists: seq<ListRow>, d: DomainRow, c: Condition) {
    exists l :: l in lists && Joins(c, l, d)
  }

  lemma {:induction false} JoinSize(lists: seq<ListRow>, rows: seq<DomainRow>, c: Condition)
    requires UniqueLists(lists)
    ensures |Join(lists, rows, c)| <= |rows|
    ensures |Join(lists, rows, c)| == |rows| <==> forall d :: d in rows ==> HasPartner(lists, d, c)
  {
    if |rows| > 0 {
      JoinSize(lists, rows[..|rows| - 1], c);
      var last := rows[|rows| - 1];
      RowMatchesAtMostOne(lists, last, c);
      assert |RowMatches(lists, last, c)| == 1 <==> HasPartner(lists, last, c);
      assert last in rows;
      assert forall d :: d in rows <==> d in rows[..|rows| - 1] || d == last;
    }
  }

  /** What a caller sees: strictly ascending names, and exactly the rows that join. */
  lemma OrderedResults(lists: seq<ListRow>, rows: seq<DomainRow>, c: Condition)
    requires UniqueLists(lists) && DistinctNames(rows)
    ensures Ascending(OrderByName(Join(lists, rows, c)))
    ensures forall r :: r in OrderByName(Join(lists, rows, c)) <==> IsResult(lists, rows, c, r)
  {
    JoinMembers(lists, rows, c);
    JoinDistinct(lists, rows, c);
    OrderAscends(Join(lists, rows, c));
    OrderKeepsRows(Join(lists, rows, c));
    SameRowsSameLength(Join(lists, rows, c), OrderByName(Join(lists, rows, c)));
  }

  /** The rows of get(id) are the rows of get(0) that belong to the list. */
  lemma ListResult(lists: seq<ListRow>, rows: seq<DomainRow>, listId: int, r: Domain)
    ensures IsResult(lists, rows, ActiveList(listId), r) <==> IsResult(lists, rows, AnyActive, r) && r.listId == listId
  {
    var d := DomainRow(r.name, r.listId);
    if l :| l in lists && Joins(AnyActive, l, d) && r == Joined(l, d) {
      assert r.listId == listId ==> Joins(ActiveList(listId), l, d);
    }
    if l :| l in lists && Joins(ActiveList(listId), l, d) && r == Joined(l, d) {
      assert Joins(AnyActive, l, d);
    }
  }

  /** A list that owns the name of a result row and gives the row its list name. */
  ghost predicate OwnedBy(l: ListRow, rows: seq<DomainRow>, r: Domain) {
    r.name in AsMap(rows) && AsMap(rows)[r.name] == l.id && r.listId == l.id && r.listName == Some(l.name)
  }

  /** The rows of each query in full: the name, the id and the name of its list, and which lists count. */
  lemma ResultsInFull(lists: seq<ListRow>, rows: seq<DomainRow>, listId: int, r: Domain)
    requires DistinctNames(rows)
    ensures IsResult(lists, rows, AnyActive, r) <==> exists l :: l in lists && l.active && OwnedBy(l, rows, r)
    ensures IsResult(lists, rows, ActiveList(listId), r) <==>
            exists l :: l in lists && l.active && l.id == listId && OwnedBy(l, rows, r)
    ensures IsResult(lists, rows, ActiveBlocked, r) <==>
            exists l :: l in lists && l.active && !l.isWhitelist && OwnedBy(l, rows, r)
    ensures IsResult(lists, rows, ActiveWhitelisted, r) <==>
            exists l :: l in lists && l.active && l.isWhitelist && OwnedBy(l, rows, r)
  {
    AsMapEntries(rows);
    var d := DomainRow(r.name, r.listId);
    assert d in rows <==> r.name in AsMap(rows) && AsMap(rows)[r.name] == r.listId;
    forall l | l in lists
      ensures Joins(AnyActive, l, d) && r == Joined(l, d) && d in rows <==> l.active && OwnedBy(l, rows, r)
      ensures Joins(ActiveList(listId), l, d) && r == Joined(l, d) && d in rows <==>
              l.active && l.id == listId && OwnedBy(l, rows, r)
      ensures Joins(ActiveBlocked, l, d) && r == Joined(l, d) && d in rows <==>
              l.active && !l.isWhitelist && OwnedBy(l, rows, r)
      ensures Joins(ActiveWhitelisted, l, d) && r == Joined(l, d) && d in rows <==>
              l.active && l.isWhitelist && OwnedBy(l, rows, r)
    {}
  }

  // ---------------------------------------------------------------- partitions

  lemma {:induction false} RowMatchesSplit(lists: seq<ListRow>, d: DomainRow)
    ensures multiset(RowMatches(lists, d, AnyActive)) ==
            multiset(RowMatches(lists, d, ActiveBlocked)) + multiset(RowMatches(lists, d, ActiveWhitelisted))
  {
    if |lists| > 0 {
      RowMatchesSplit(lists[1..], d);
      var l := lists[0];
      assert multiset(Head(l, d, AnyActive)) ==
             multiset(Head(l, d, ActiveBlocked)) + multiset(Head(l, d, ActiveWhitelisted));
    }
  }

  /** get(0) is the disjoint union of get_blocked and get_whitelisted. */
  lemma {:induction false} ActiveIsBlockedOrWhitelisted(lists: seq<ListRow>, rows: seq<DomainRow>)
    ensures multiset(Join(lists, rows, AnyActive)) ==
            multiset(Join(lists, rows, ActiveBlocked)) + multiset(Join(lists, rows, ActiveWhitelisted))
  {
    if |rows| > 0 {
      ActiveIsBlockedOrWhitelisted(lists, rows[..|rows| - 1]);
      RowMatchesSplit(lists, rows[|rows| - 1]);
    }
  }

  lemma BlockedAndWhitelistedAreDisjoint(lists: seq<ListRow>, rows: seq<DomainRow>, b: Domain, w: Domain)
    requires UniqueLists(lists) && DistinctNames(rows)
    requires b in Join(lists, rows, ActiveBlocked) && w in Join(lists, rows, ActiveWhitelisted)
    ensures b.name != w.name
  {
    JoinMembers(lists, rows, ActiveBlocked);
    JoinMembers(lists, rows, ActiveWhitelisted);
    AsMapEntries(rows);
    var bd, wd := DomainRow(b.name, b.listId), DomainRow(w.name, w.listId);
    var l :| l in lists && Joins(ActiveBlocked, l, bd);
    var k :| k in lists && Joins(ActiveWhitelisted, k, wd);
    if b.name == w.name {
      SameRow(lists, l, k);
    }
  }

  /** The results of get(id) for each list in turn. */
  ghost function PerList(lists: seq<ListRow>, rows: seq<DomainRow>, part: seq<ListRow>): seq<Domain> {
    if |part| == 0 then []
    else PerList(lists, rows, part[..|part| - 1]) + Join(lists, rows, ActiveList(part[|part| - 1].id))
  }

  /** The part of get(0) that lies in some of the lists. */
  ghost function OfLists(s: seq<Domain>, part: seq<ListRow>): seq<Domain> {
    if |s| == 0 then []
    else OfLists(s[..|s| - 1], part) + if HasId(part, s[|s| - 1].listId) then [s[|s| - 1]] else []
  }

  lemma {:induction false} OfListsConcat(a: seq<Domain>, b: seq<Domain>, part: seq<ListRow>)
    ensures OfLists(a + b, part) == OfLists(a, part) + OfLists(b, part)
  {
    if |b| == 0 {
      assert a + b == a;
    } else {
      assert (a + b)[..|a + b| - 1] == a + b[..|b| - 1];
      OfListsConcat(a, b[..|b| - 1], part);
    }
  }

  lemma HasIdAppend(part: seq<ListRow>, l: ListRow, id: int)
    ensures HasId(part + [l], id) <==> HasId(part, id) || id == l.id
    ensures HasId([l], id) <==> id == l.id
  {
    assert forall k :: k in part + [l] <==> k in part || k == l;
    assert l in [l];
  }

  lemma {:induction false} OfListsGrows(s: seq<Domain>, part: seq<ListRow>, l: ListRow)
    requires !HasId(part, l.id)
    ensures multiset(OfLists(s, part + [l])) == multiset(OfLists(s, part)) + multiset(OfLists(s, [l]))
  {
    if |s| > 0 {
      OfListsGrows(s[..|s| - 1], part, l);
      HasIdAppend(part, l, s[|s| - 1].listId);
    }
  }

  lemma {:induction false} RowOfList(lists: seq<ListRow>, d: DomainRow, l: ListRow)
    ensures RowMatches(lists, d, ActiveList(l.id)) == OfLists(RowMatches(lists, d, AnyActive), [l])
  {
    if |lists| > 0 {
      RowOfList(lists[1..], d, l);
      var head := Head(lists[0], d, AnyActive);
      OfListsConcat(head, RowMatches(lists[1..], d, AnyActive), [l]);
      HasIdAppend([], l, d.listId);
      if |head| == 1 {
        assert head[..0] == [];
      }
    }
  }

  lemma {:induction false} JoinOfList(lists: seq<ListRow>, rows: seq<DomainRow>, l: ListRow)
    ensures Join(lists, rows, ActiveList(l.id)) == OfLists(Join(lists, rows, AnyActive), [l])
  {
    if |rows| > 0 {
      JoinOfList(lists, rows[..|rows| - 1], l);
      RowOfList(lists, rows[|rows| - 1], l);
      OfListsConcat(Join(lists, rows[..|rows| - 1], AnyActive), RowMatches(lists, rows[|rows| - 1], AnyActive), [l]);
    }
  }

  lemma LastIdIsNew(part: seq<ListRow>)
    requires UniqueLists(part) && |part| > 0
    ensures UniqueLists(part[..|part| - 1]) && !HasId(part[..|part| - 1], part[|part| - 1].id)
  {
    var init, last := part[..|part| - 1], part[|part| - 1];
    forall l | l in init ensures l.id != last.id {
      var i :| 0 <= i < |init| && init[i] == l;
      assert part[i] == l;
    }
  }

  lemma PerListStep(lists: seq<ListRow>, rows: seq<DomainRow>, init: seq<ListRow>, last: ListRow)
    ensures multiset(PerList(lists, rows, init + [last])) ==
            multiset(PerList(lists, rows, init)) + multiset(OfLists(Join(lists, rows, AnyActive), [last]))
  {
    JoinOfList(lists, rows, last);
    assert (init + [last])[..|init|] == init;
  }

  lemma {:induction false} PerListPart(lists: seq<ListRow>, rows: seq<DomainRow>, part: seq<ListRow>)
    requires UniqueLists(part)
    ensures multiset(PerList(lists, rows, part)) == multiset(OfLists(Join(lists, rows, AnyActive), part))
  {
    var all := Join(lists, rows, AnyActive);
    if |part| == 0 {
      NoneOfNoList(all);
      assert part == [];
    } else {
      var init, last := part[..|part| - 1], part[|part| - 1];
      LastIdIsNew(part);
      PerListPart(lists, rows, init);
      PerListStep(lists, rows, init, last);
      OfListsGrows(all, init, last);
      assert init + [last] == part;
    }
  }

  lemma {:induction false} NoneOfNoList(s: seq<Domain>)
    ensures OfLists(s, []) == []
  {
    if |s| > 0 {
      NoneOfNoList(s[..|s| - 1]);
    }
  }

  lemma {:induction false} AllOfLists(s: seq<Domain>, part: seq<ListRow>)
    requires forall d :: d in s ==> HasId(part, d.listId)
    ensures OfLists(s, part) == s
  {
    if |s| > 0 {
      assert s[|s| - 1] in s;
      AllOfLists(s[..|s| - 1], part);
    }
  }

  /** get(0) is the disjoint union of get(id) over all the lists. */
  lemma ActiveIsUnionOfLists(lists: seq<ListRow>, rows: seq<DomainRow>)
    requires UniqueLists(lists) && DistinctNames(rows)
    ensures multiset(Join(lists, rows, AnyActive)) == multiset(PerList(lists, rows, lists))
  {
    PerListPart(lists, rows, lists);
    JoinMembers(lists, rows, AnyActive);
    AllOfLists(Join(lists, rows, AnyActive), lists);
  }

  lemma NamedIsActive(lists: seq<ListRow>, rows: seq<DomainRow>, name: string, r: Domain)
    requires UniqueLists(lists) && DistinctNames(rows)
    ensures r in Join(lists, rows, ActiveNamed(name)) <==> r in Join(lists, rows, AnyActive) && r.name == name
  {
    JoinMembers(lists, rows, ActiveNamed(name));
    JoinMembers(lists, rows, AnyActive);
    var d := DomainRow(r.name, r.listId);
    if IsMatch(lists, d, AnyActive, r) && r.name == name {
      var l :| l in lists && Joins(AnyActive, l, d) && r == Joined(l, d);
      assert Joins(ActiveNamed(name), l, d);
    }
    if IsMatch(lists, d, ActiveNamed(name), r) {
      var l :| l in lists && Joins(ActiveNamed(name), l, d) && r == Joined(l, d);
      assert Joins(AnyActive, l, d);
    }
  }

  /** Looking one name up finds a row exactly when get(0) has one, and it is that row. */
  lemma LookupMatchesActive(lists: seq<ListRow>, rows: seq<DomainRow>, name: string)
    requires UniqueLists(lists) && DistinctNames(rows)
    ensures var found := Join(lists, rows, ActiveNamed(name));
            && |found| <= 1
            && (|found| > 0 <==> exists r :: r in Join(lists, rows, AnyActive) && r.name == name)
            && (|found| > 0 ==> found[0] in Join(lists, rows, AnyActive) && found[0].name == name)
  {
    JoinDistinct(lists, rows, ActiveNamed(name));
    var found := Join(lists, rows, ActiveNamed(name));
    forall r ensures r in found <==> r in Join(lists, rows, AnyActive) && r.name == name {
      NamedIsActive(lists, rows, name, r);
    }
    assert |found| > 0 ==> found[0] in found;
    assert |found| > 1 ==> found[1] in found && found[0].name != found[1].name;
  }

  /** count_blocked counts every row once: it is the size of get_blocked only when no row is whitelisted or inactive. */
  lemma {:induction false} LeftJoinCountsEveryRow(lists: seq<ListRow>, rows: seq<DomainRow>)
    requires UniqueLists(lists)
    ensures LeftJoinCount(lists, rows, NotWhitelist) == |rows|
  {
    if |rows| > 0 {
      LeftJoinCountsEveryRow(lists, rows[..|rows| - 1]);
      RowMatchesAtMostOne(lists, rows[|rows| - 1], NotWhitelist);
    }
  }

  lemma CountBlockedIsExact(lists: seq<ListRow>, rows: seq<DomainRow>)
    requires UniqueLists(lists) && DistinctNames(rows)
    ensures LeftJoinCount(lists, rows, NotWhitelist) == |rows| >= |Join(lists, rows, ActiveBlocked)|
    ensures LeftJoinCount(lists, rows, NotWhitelist) == |Join(lists, rows, ActiveBlocked)| <==>
            forall d :: d in rows ==> exists l :: l in lists && l.id == d.listId && l.active && !l.isWhitelist
  {
    LeftJoinCountsEveryRow(lists, rows);
    JoinSize(lists, rows, ActiveBlocked);
    forall d | d in rows
      ensures HasPartner(lists, d, ActiveBlocked) <==>
              (exists l :: l in lists && l.id == d.listId && l.active && !l.isWhitelist)
    {
      if l :| l in lists && l.id == d.listId && l.active && !l.isWhitelist {
        assert Joins(ActiveBlocked, l, d);
      }
    }
  }
}
