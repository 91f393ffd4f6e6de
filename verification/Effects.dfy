/** What any interleaving of connections does to the store is a run of store operations. */
module Effects {
  import opened Common
  import opened Tables
  import opened Json
  import opened DomainListJson
  import opened Service
  import opened Protocol
  import Runs
  import Blocklist
  import Whitelisting

  /** The store operation a command asks for, if it asks for one and its arguments can be read. */
  function Effect(env: Env, cmd: Command, data: Value, now: int): Option<Runs.Op> {
    match cmd
    case ImportList => ImportEffect(env, data, now)
    case BlockCmd => if Batch(data).Some? then Some(Runs.BlockNames(Batch(data).value, 0)) else None
    case UnblockCmd => if Batch(data).Some? then Some(Runs.UnblockNames(Batch(data).value)) else None
    case _ => None
  }

  /** The names of a block or unblock request, when they can be read. */
  function Batch(data: Value): Option<seq<string>> {
    var domains := Member(data, "domains");
    if domains.Threw? || !domains.value.Array? || Texts(domains.value.items).Threw? then None
    else Some(Texts(domains.value.items).value)
  }

  function ImportEffect(env: Env, data: Value, now: int): Option<Runs.Op> {
    var root := Member(data, "domain_list");
    if root.Threw? || !root.value.Object? then None
    else
      var (lst, reading) := Decoded(env.valid, NO_LIST, root.value);
      var custom := AsBool(Member(data, "custom").value);
      if reading != Filled || custom.Threw? then None else Some(Runs.ImportList(lst, custom.value, now))
  }

  /** The operations of one event: none unless its connection is authenticated. */
  function Performed(env: Env, s: System, e: Event): seq<Runs.Op> {
    if !e.Received? || !Authenticated(s, e.id) || e.request.None? || RequestedCommand(e.request.value).Threw? then []
    else
      var effect := Effect(env, RequestedCommand(e.request.value).value, Member(e.request.value, "data").value, e.now);
      if effect.Some? then [effect.value] else []
  }

  function AllPerformed(env: Env, s: System, events: seq<Event>): seq<Runs.Op> {
    if |events| == 0 then []
    else
      var init := events[..|events| - 1];
      AllPerformed(env, s, init) + Performed(env, Protocol.Run(env, s, init), events[|events| - 1])
  }

  lemma RunOne(valid: string -> bool, st: State, op: Runs.Op)
    ensures Runs.Run(valid, st, [op]) == Runs.Step(valid, st, op)
  {
    assert [op][..0] == [];
    assert Runs.Run(valid, st, []) == st;
  }

  lemma {:induction false} RunConcat(valid: string -> bool, st: State, a: seq<Runs.Op>, b: seq<Runs.Op>)
    ensures Runs.Run(valid, st, a + b) == Runs.Run(valid, Runs.Run(valid, st, a), b)
  {
    if |b| == 0 {
      assert a + b == a;
    } else {
      assert (a + b)[..|a + b| - 1] == a + b[..|b| - 1];
      RunConcat(valid, st, a, b[..|b| - 1]);
    }
  }

  ghost function After(env: Env, st: State, effect: Option<Runs.Op>): State {
    if effect.Some? then Runs.Step(env.valid, st, effect.value) else st
  }

  lemma ImportFollows(env: Env, w: World, data: Value, now: int)
    ensures HandleImport(env, w, data, now).0.store == After(env, w.store, ImportEffect(env, data, now))
  {}

  lemma BlockFollows(env: Env, w: World, data: Value)
    ensures HandleBlock(env, w, data).0.store == After(env, w.store, Effect(env, BlockCmd, data, 0))
  {}

  lemma UnblockFollows(env: Env, w: World, data: Value)
    ensures HandleUnblock(env, w, data).0.store == After(env, w.store, Effect(env, UnblockCmd, data, 0))
  {}

  lemma HandleFollows(env: Env, w: World, token: string, cmd: Command, data: Value, now: int)
    ensures Handle(env, w, token, cmd, data, now).0.store == After(env, w.store, Effect(env, cmd, data, now))
  {
    match cmd {
      case ImportList => ImportFollows(env, w, data, now);
      case BlockCmd => BlockFollows(env, w, data);
      case UnblockCmd => UnblockFollows(env, w, data);
      case _ =>
    }
  }

  lemma StepFollows(env: Env, s: System, e: Event)
    ensures Next(env, s, e).world.store == Runs.Run(env.valid, s.world.store, Performed(env, s, e))
  {
    if e.Received? && Authenticated(s, e.id) && e.request.Some? && RequestedCommand(e.request.value).Returned? {
      var cmd, data := RequestedCommand(e.request.value).value, Member(e.request.value, "data").value;
      HandleFollows(env, s.world, s.conns[e.id].token, cmd, data, e.now);
      if Effect(env, cmd, data, e.now).Some? {
        RunOne(env.valid, s.world.store, Effect(env, cmd, data, e.now).value);
      }
    }
  }

  /** The store after any interleaving is the store after the operations its authenticated requests asked for. */
  lemma {:induction false} InterleavingsAreRuns(env: Env, s: System, events: seq<Event>)
    ensures Protocol.Run(env, s, events).world.store ==
            Runs.Run(env.valid, s.world.store, AllPerformed(env, s, events))
  {
    if |events| > 0 {
      var init, last := events[..|events| - 1], events[|events| - 1];
      InterleavingsAreRuns(env, s, init);
      StepFollows(env, Protocol.Run(env, s, init), last);
      RunConcat(env.valid, s.world.store, AllPerformed(env, s, init), Performed(env, Protocol.Run(env, s, init), last));
    }
  }

  /** So every interleaving keeps the store well formed, and a whitelisted name unless an import moves it. */
  lemma InterleavingsKeepStore(env: Env, s: System, events: seq<Event>, name: string)
    requires Runs.Invariant(s.world.store)
    ensures Runs.Invariant(Protocol.Run(env, s, events).world.store)
    ensures Blocklist.Whitelisted(s.world.store, name) &&
            !Blocklist.Whitelisted(Protocol.Run(env, s, events).world.store, name) ==>
            exists op :: op in AllPerformed(env, s, events) && op.ImportList? && Whitelisting.Evicts(op, name)
  {
    InterleavingsAreRuns(env, s, events);
    var ops := AllPerformed(env, s, events);
    Whitelisting.RunInvariant(env.valid, s.world.store, ops);
    NeverRemoves(env, s, events);
    if Blocklist.Whitelisted(s.world.store, name) && forall op :: op in ops ==> !Whitelisting.Evicts(op, name) {
      Whitelisting.UnevictedStays(env.valid, s.world.store, ops, name);
    }
  }

  lemma {:induction false} NeverRemoves(env: Env, s: System, events: seq<Event>)
    ensures forall op :: op in AllPerformed(env, s, events) ==> !op.RemoveList?
  {
    if |events| > 0 {
      NeverRemoves(env, s, events[..|events| - 1]);
    }
  }
}
