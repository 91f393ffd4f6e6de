/** What the two managers promise, stated on the state the tables denote: each batch is one pointwise update. */
module Blocklist {
  import opened Common
  import opened Tables

  const CUSTOM := "CUSTOM"
  const WHITELIST := "WHITELIST"

  /** `name` overrides everything: after the update exactly the given names belong to `listId`. */
  function Override(m: map<string, int>, names: set<string>, listId: int): map<string, int> {
    map n | n in m.Keys + names :: if n in names then listId else m[n]
  }

  lemma OverrideStep(m: map<string, int>, names: set<string>, name: string, listId: int)
    ensures Override(m, {}, listId) == m
    ensures Override(m, names, listId)[name := listId] == Override(m, names + {name}, listId)
  {}

  predicate Whitelisted(st: State, name: string) {
    name in st.domains && st.domains[name] in WhitelistIds(st.lists)
  }

  /** The row get_blocked would return for a name. */
  predicate Blocked(st: State, name: string) {
    name in st.domains &&
    exists l :: l in st.lists && l.id == st.domains[name] && l.active && !l.isWhitelist
  }

  /** The id of a named list, or the 0 of a default-constructed record. */
  function IdOf(lists: seq<ListRow>, name: string): int {
    var found := FindList(lists, name);
    if found.Some? then found.value.id else 0
  }

  /** An unnamed list is the CUSTOM list. */
  function ListName(name: string): string {
    if name == "" then CUSTOM else name
  }

  function Created(st: State, name: string, url: string, description: string, custom: bool): State {
    st.(lists := InsertList(st.lists, ListName(name), url, description, custom))
  }

  /** The valid names of a batch; what a batch does depends on nothing else. */
  function Wanted(valid: string -> bool, names: seq<string>): set<string> {
    set n | n in names && valid(n)
  }

  function NotWhitelisted(st: State, names: set<string>): set<string> {
    set n | n in names && !Whitelisted(st, n)
  }

  /** Where block_domains puts its names: list 0 stands for the CUSTOM list, created when missing. */
  function Ready(st: State, listId: int): State {
    if listId == 0 then Created(st, CUSTOM, "", "Custom list", true) else st
  }

  function Target(st: State, listId: int): int {
    if listId == 0 then IdOf(Ready(st, listId).lists, CUSTOM) else listId
  }

  /** Block: the valid names not held by a whitelist move to the target list, or the whole batch is refused. */
  function Block(valid: string -> bool, st: State, names: seq<string>, listId: int): (State, bool) {
    var ready, moved := Ready(st, listId), NotWhitelisted(Ready(st, listId), Wanted(valid, names));
    if Wanted(valid, names) == {} then (st, false)
    else if moved != {} && !HasId(ready.lists, Target(st, listId)) then (ready, false)
    else (ready.(domains := Override(ready.domains, moved, Target(st, listId))), true)
  }

  /** Unblock: the valid names move to the list called WHITELIST, or nothing happens when there is none. */
  function Unblock(valid: string -> bool, st: State, names: seq<string>): (State, bool) {
    var accepted := Wanted(valid, names);
    if accepted == {} || !HasList(st.lists, WHITELIST) then (st, false)
    else (st.(domains := Override(st.domains, accepted, IdOf(st.lists, WHITELIST))), true)
  }

  function NamesOf(domains: seq<Domain>): set<string> {
    set d | d in domains :: d.name
  }

  function TextOf(description: Option<string>): string {
    if description.Some? then description.value else ""
  }

  /** Import: every name of the list moves to it, whoever owned the name before and whether or not it is valid. */
  function Import(st: State, lst: DomainList, custom: bool, now: int): State {
    var ready := Created(st, lst.name, lst.url, TextOf(lst.description), custom);
    var id := IdOf(ready.lists, ListName(lst.name));
    State(SetMtime(ready.lists, id, now), Override(ready.domains, NamesOf(lst.domains), id))
  }

  function Remove(st: State, name: string): State {
    State(DeleteList(st.lists, name), Disowned(st.domains, set l | l in st.lists && l.name == name :: l.id))
  }

  function SetEnabled(st: State, name: string, enabled: bool): State {
    st.(lists := SetActive(st.lists, name, enabled))
  }

  function Init(st: State): State {
    if st.lists == [] then st.(lists := Seeded([], SEEDS)) else st
  }
}
