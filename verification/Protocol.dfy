/** Any number of connections, interleaved in any way over one world. */
module Protocol {
  import opened Common
  import opened Crypto
  import opened Auth
  import opened Json
  import opened Service

  datatype System = System(world: World, conns: map<nat, Conn>)

  /** A connection is accepted, with the token drawn for it, or one of its requests is processed. */
  datatype Event =
    | Opened(id: nat, token: string)
    | Received(id: nat, request: Option<Value>, now: int)

  function Next(env: Env, s: System, e: Event): System {
    match e
    case Opened(id, token) =>
      if id in s.conns then s
      else s.(conns := s.conns[id := Conn(token, Accepts(env.digestOf, s.world.settings, token, ""))])
    case Received(id, request, now) =>
      if id !in s.conns then s
      else
        var (world, conn, _) := Process(env, s.world, s.conns[id], request, now);
        System(world, s.conns[id := conn])
  }

  function Run(env: Env, s: System, events: seq<Event>): System {
    if |events| == 0 then s else Next(env, Run(env, s, events[..|events| - 1]), events[|events| - 1])
  }

  predicate Authenticated(s: System, id: nat) {
    id in s.conns && s.conns[id].authenticated
  }

  predicate HasPassword(w: World) {
    Stored(w.settings) != ""
  }

  /** The hash a request offers, when it is an auth request. */
  function OfferedHash(request: Option<Value>): Option<string> {
    if request.None? || RequestedCommand(request.value) != Returned(Authenticate) then None
    else
      match MemberText(Member(request.value, "data").value, "hash")
      case Threw => None
      case Returned(hash) => Some(hash)
  }

  /** The three ways in: opened with no password stored, or auth with none stored or with the right hash. */
  predicate Grants(env: Env, s: System, e: Event, id: nat) {
    e.id == id &&
    match e
    case Opened(_, _) => id !in s.conns && !HasPassword(s.world)
    case Received(_, request, _) =>
      && id in s.conns
      && OfferedHash(request).Some?
      && (!HasPassword(s.world) ||
          OfferedHash(request).value == Md5(env.digestOf, Stored(s.world.settings) + s.conns[id].token))
  }

  /** One event authenticates a connection that was not, exactly by one of the three ways. */
  lemma StepGrants(env: Env, s: System, e: Event, id: nat)
    ensures Authenticated(Next(env, s, e), id) <==> Authenticated(s, id) || Grants(env, s, e, id)
  {
    if e.Opened? && e.id == id {
      Md5Is32Digits(env.digestOf, Stored(s.world.settings) + e.token);
    }
  }

  /** The k-th event of a run lets a connection in. */
  ghost predicate GrantedAt(env: Env, s: System, events: seq<Event>, id: nat, k: nat)
    requires k < |events|
  {
    Grants(env, Run(env, s, events[..k]), events[k], id)
  }

  ghost predicate EverGranted(env: Env, s: System, events: seq<Event>, id: nat) {
    exists k: nat :: k < |events| && GrantedAt(env, s, events, id, k)
  }

  lemma EverGrantedStep(env: Env, s: System, init: seq<Event>, last: Event, id: nat)
    ensures EverGranted(env, s, init + [last], id) <==>
            EverGranted(env, s, init, id) || Grants(env, Run(env, s, init), last, id)
    ensures Run(env, s, init + [last]) == Next(env, Run(env, s, init), last)
  {
    var events := init + [last];
    assert events[..|init|] == init && events[|init|] == last;
    assert GrantedAt(env, s, events, id, |init|) <==> Grants(env, Run(env, s, init), last, id);
    forall k: nat | k < |init| ensures GrantedAt(env, s, events, id, k) <==> GrantedAt(env, s, init, id, k) {
      assert init[..k] == events[..k];
    }
  }

  /** In every interleaving, a connection is authenticated exactly when some earlier event let it in. */
  lemma {:induction false} AuthenticatedIffGranted(env: Env, s: System, events: seq<Event>, id: nat)
    requires id !in s.conns
    ensures Authenticated(Run(env, s, events), id) <==> EverGranted(env, s, events, id)
  {
    if |events| > 0 {
      var init, last := events[..|events| - 1], events[|events| - 1];
      assert events == init + [last];
      AuthenticatedIffGranted(env, s, init, id);
      EverGrantedStep(env, s, init, last, id);
      StepGrants(env, Run(env, s, init), last, id);
    }
  }

  /** The flag and the token of an open connection: the flag is never taken back, the token never changes. */
  lemma {:induction false} ConnectionsPersist(env: Env, s: System, events: seq<Event>, id: nat)
    requires id in s.conns
    ensures id in Run(env, s, events).conns && Run(env, s, events).conns[id].token == s.conns[id].token
    ensures s.conns[id].authenticated ==> Run(env, s, events).conns[id].authenticated
  {
    if |events| > 0 {
      ConnectionsPersist(env, s, events[..|events| - 1], id);
      StepGrants(env, Run(env, s, events[..|events| - 1]), events[|events| - 1], id);
    }
  }

  /** A step of a connection that is not authenticated changes neither settings nor lists nor domains. */
  lemma UnauthenticatedChangesNothing(env: Env, s: System, e: Event)
    requires e.Received? ==> !Authenticated(s, e.id)
    ensures Next(env, s, e).world == s.world
  {}

  /** The run as it would be without one connection. */
  function Without(events: seq<Event>, id: nat): seq<Event> {
    if |events| == 0 then []
    else Without(events[..|events| - 1], id) + if events[|events| - 1].id == id then [] else [events[|events| - 1]]
  }

  /** Two systems that differ in nothing but one connection. */
  ghost predicate AgreeExcept(a: System, b: System, id: nat) {
    a.world == b.world && a.conns - {id} == b.conns
  }

  lemma OtherStepAgrees(env: Env, a: System, b: System, id: nat, e: Event)
    requires AgreeExcept(a, b, id) && e.id != id
    ensures AgreeExcept(Next(env, a, e), Next(env, b, e), id)
  {
    assert e.id in a.conns <==> e.id in b.conns;
    assert e.id in a.conns ==> a.conns[e.id] == b.conns[e.id];
  }

  lemma OwnStepAgrees(env: Env, a: System, b: System, e: Event)
    requires AgreeExcept(a, b, e.id) && !Authenticated(a, e.id)
    ensures AgreeExcept(Next(env, a, e), b, e.id)
  {
    UnauthenticatedChangesNothing(env, a, e);
  }

  /**
   * A connection that does not become authenticated has no influence at all: the world and every other connection
   * end as if it had never been opened.
   */
  lemma {:induction false} UnauthenticatedHasNoInfluence(env: Env, s: System, events: seq<Event>, id: nat)
    requires id !in s.conns && !Authenticated(Run(env, s, events), id)
    ensures AgreeExcept(Run(env, s, events), Run(env, s, Without(events, id)), id)
  {
    if |events| == 0 {
      assert s.conns - {id} == s.conns;
    } else {
      var init, last := events[..|events| - 1], events[|events| - 1];
      var before, others := Run(env, s, init), Without(init, id);
      StepGrants(env, before, last, id);
      UnauthenticatedHasNoInfluence(env, s, init, id);
      if last.id == id {
        OwnStepAgrees(env, before, Run(env, s, others), last);
        assert Without(events, id) == others;
      } else {
        OtherStepAgrees(env, before, Run(env, s, others), id, last);
        assert (others + [last])[..|others|] == others;
      }
    }
  }

  /** While nobody offers the right hash, a password keeps every newcomer out and the world as it is. */
  lemma {:induction false} PasswordLocksWorld(env: Env, s: System, events: seq<Event>)
    requires HasPassword(s.world) && forall id :: id in s.conns ==> !s.conns[id].authenticated
    requires forall k: nat :: k < |events| ==> !GrantedAt(env, s, events, events[k].id, k)
    ensures Run(env, s, events).world == s.world
    ensures forall id :: id in Run(env, s, events).conns ==> !Run(env, s, events).conns[id].authenticated
  {
    if |events| > 0 {
      var init, last := events[..|events| - 1], events[|events| - 1];
      forall k: nat | k < |init| ensures !GrantedAt(env, s, init, init[k].id, k) {
        assert init[..k] == events[..k] && init[k] == events[k];
        assert !GrantedAt(env, s, events, events[k].id, k);
      }
      assert !GrantedAt(env, s, events, last.id, |init|);
      PasswordLocksWorld(env, s, init);
      var before := Run(env, s, init);
      UnauthenticatedChangesNothing(env, before, last);
      forall id | id in Next(env, before, last).conns ensures !Next(env, before, last).conns[id].authenticated {
        StepGrants(env, before, last, id);
      }
    }
  }

  // ---------------------------------------------------------------- the stored password

  /** Absent, or exactly 32 characters. */
  predicate PasswordShape(settings: Settings) {
    PASSWORD in settings ==> |settings[PASSWORD]| == 32
  }

  lemma {:induction false} PasswordShapeKept(env: Env, s: System, events: seq<Event>)
    requires PasswordShape(s.world.settings)
    ensures PasswordShape(Run(env, s, events).world.settings)
  {
    if |events| > 0 {
      PasswordShapeKept(env, s, events[..|events| - 1]);
      var before, e := Run(env, s, events[..|events| - 1]), events[|events| - 1];
      if e.Received? && Authenticated(before, e.id) && e.request.Some? && RequestedCommand(e.request.value).Returned? {
        HandleKeepsShape(env, before.world, before.conns[e.id].token, RequestedCommand(e.request.value).value,
          Member(e.request.value, "data").value, e.now);
      }
    }
  }

  lemma HandleKeepsShape(env: Env, w: World, token: string, cmd: Command, data: Value, now: int)
    requires PasswordShape(w.settings)
    ensures PasswordShape(Handle(env, w, token, cmd, data, now).0.settings)
  {}
}
