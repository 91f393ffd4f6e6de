/** The client half: what Session sends, and when it reports success. */
module Session {
  import opened Common
  import opened Crypto
  import opened Auth
  import opened Json
  import opened Service
  import opened Protocol

  function Request(cmd: string, params: Value): Option<Value> {
    Some(Object(map["command" := Text(cmd), "data" := params]))
  }

  /** Two texts that hash alike without being equal. */
  predicate Collision(digestOf: string -> Digest, a: string, b: string) {
    a != b && Md5(digestOf, a) == Md5(digestOf, b)
  }

  function Answer(env: Env, s: System, e: Event): Response
    requires e.Received? && e.id in s.conns
  {
    Process(env, s.world, s.conns[e.id], e.request, e.now).2
  }

  function TokenRequest(): Option<Value> {
    Request("get_token", Null)
  }

  function AuthRequest(digestOf: string -> Digest, password: string, token: string): Option<Value> {
    Request("auth", Object(map["hash" := Text(Md5(digestOf, Md5(digestOf, password) + token))]))
  }

  function PasswordRequest(digestOf: string -> Digest, password: string, token: string): Option<Value> {
    var hash := Md5(digestOf, password);
    Request("set_service_password",
      Object(map["password_hash" := Text(hash), "token_hash" := Text(Md5(digestOf, hash + token))]))
  }

  /** The text set_error copies; None stands for the text of an exception. */
  function ErrorOf(response: Response): Option<string> {
    match response
    case Success(_) => Some("")
    case Failure(message, _) => Some(message)
    case Aborted => None
  }

  class Session {
    const connection: ServiceConnection
    var error: Option<string>

    constructor (connection: ServiceConnection)
      ensures this.connection == connection && error == Some("")
    {
      this.connection := connection;
      error := Some("");
    }

    method Execute(request: Option<Value>, now: int) returns (response: Response)
      requires connection.Wired() && connection.backend.Valid()
      modifies this, connection, connection.backend, connection.backend.db, connection.backend.settings
      ensures connection.backend.Valid()
      ensures (connection.backend.View(), connection.View(), response) ==
              Process(connection.backend.Environment(), old(connection.backend.View()), old(connection.View()),
                      request, now)
      ensures response.Success? ==> error == Some("")
      ensures response.Failure? ==> error == Some(response.message)
      ensures response.Aborted? ==> error == None
    {
      response := connection.ProcessRequest(request, now);
      error := ErrorOf(response);
    }

    /** Succeeds when no password is stored, or the given one is it, or the two collide under this token. */
    method Authenticate(password: string, now: int) returns (ok: bool)
      requires connection.Wired() && connection.backend.Valid() && connection.auth.token != ""
      modifies this, connection, connection.backend, connection.backend.db, connection.backend.settings
      ensures connection.backend.Valid()
      ensures connection.backend.View() == old(connection.backend.View())
      ensures var w, token := old(connection.backend.View()), connection.auth.token;
              var digestOf := connection.backend.digestOf;
              && (ok <==> Admitted(digestOf, w, token, password))
              && connection.isAuthenticated == (old(connection.isAuthenticated) || ok)
    {
      ghost var w, c := connection.backend.View(), connection.View();
      var response := Execute(TokenRequest(), now);
      TokenAnswer(connection.backend.Environment(), w, c, now);
      ok := false;
      if response.Success? {
        var token := response.token;
        if token != "" {
          AuthAnswer(connection.backend.Environment(), w, c, password, now);
          response := Execute(AuthRequest(connection.backend.digestOf, password, token), now);
          ok := response.Success?;
        }
      }
    }

    /** Succeeds exactly on an authenticated connection, and then the hash of the password is what is stored. */
    method SetServicePassword(password: string, now: int) returns (ok: bool)
      requires connection.Wired() && connection.backend.Valid() && connection.auth.token != ""
      modifies this, connection, connection.backend, connection.backend.db, connection.backend.settings
      ensures connection.backend.Valid() && connection.View() == old(connection.View())
      ensures ok <==> old(connection.isAuthenticated)
      ensures connection.backend.View() ==
              if ok then old(connection.backend.View()).(settings :=
                old(connection.backend.View()).settings[PASSWORD := Md5(connection.backend.digestOf, password)])
              else old(connection.backend.View())
    {
      ghost var w, c := connection.backend.View(), connection.View();
      var response := Execute(TokenRequest(), now);
      TokenAnswer(connection.backend.Environment(), w, c, now);
      ok := false;
      if response.Success? {
        var token := response.token;
        if token != "" {
          PasswordAnswer(connection.backend.Environment(), w, c, password, now);
          response := Execute(PasswordRequest(connection.backend.digestOf, password, token), now);
          ok := response.Success?;
        }
      }
    }
  }

  /** What decides an authentication. */
  predicate Admitted(digestOf: string -> Digest, w: World, token: string, password: string) {
    || !HasPassword(w)
    || Md5(digestOf, password) == Stored(w.settings)
    || Collision(digestOf, Md5(digestOf, password) + token, Stored(w.settings) + token)
  }

  lemma AppendInjective(a: string, b: string, c: string)
    ensures a + c == b + c <==> a == b
  {
    if a + c == b + c {
      assert |a| == |b|;
      assert (a + c)[..|a|] == a && (b + c)[..|b|] == b;
    }
  }

  lemma LowerCommands()
    ensures ToLower("get_token") == "get_token"
    ensures ToLower("auth") == "auth"
    ensures ToLower("set_service_password") == "set_service_password"
  {}

  lemma TokenAnswer(env: Env, w: World, c: Conn, now: int)
    ensures Process(env, w, c, TokenRequest(), now) == (w, c, Success(c.token))
  {
    LowerCommands();
    assert TokenRequest().value.members["command"] == Text("get_token");
  }

  lemma AuthAnswer(env: Env, w: World, c: Conn, password: string, now: int)
    ensures Process(env, w, c, AuthRequest(env.digestOf, password, c.token), now) ==
            if Admitted(env.digestOf, w, c.token, password) then (w, c.(authenticated := true), DONE)
            else (w, c, Failed("Invalid auth"))
  {
    LowerCommands();
    var request := AuthRequest(env.digestOf, password, c.token).value;
    assert request.members["command"] == Text("auth");
    var hash := Md5(env.digestOf, Md5(env.digestOf, password) + c.token);
    assert request.members["data"] == Object(map["hash" := Text(hash)]);
    assert MemberText(request.members["data"], "hash") == Returned(hash);
    AppendInjective(Md5(env.digestOf, password), Stored(w.settings), c.token);
  }

  lemma PasswordAnswer(env: Env, w: World, c: Conn, password: string, now: int)
    ensures Process(env, w, c, PasswordRequest(env.digestOf, password, c.token), now) ==
            if c.authenticated then (w.(settings := w.settings[PASSWORD := Md5(env.digestOf, password)]), c, DONE)
            else (w, c, Failed("Not authenticated"))
  {
    LowerCommands();
    Md5Is32Digits(env.digestOf, password);
    var request := PasswordRequest(env.digestOf, password, c.token).value;
    var hash := Md5(env.digestOf, password);
    assert request.members["command"] == Text("set_service_password");
    var data := request.members["data"];
    assert data == Object(map["password_hash" := Text(hash), "token_hash" := Text(Md5(env.digestOf, hash + c.token))]);
    assert MemberText(data, "password_hash") == Returned(hash);
    assert MemberText(data, "token_hash") == Returned(Md5(env.digestOf, hash + c.token));
  }

  /**
   * Client and server agree under any interleaving: whatever the other connections do between the two requests of
   * an authentication, it succeeds by what is stored when the second one is processed.
   */
  lemma AuthenticateInterleaved(env: Env, s: System, id: nat, between: seq<Event>, password: string, now: int)
    requires id in s.conns
    ensures var asked := Received(id, TokenRequest(), now);
            var token := Answer(env, s, asked).token;
            var later := Run(env, Next(env, s, asked), between);
            && id in later.conns
            && (Answer(env, later, Received(id, AuthRequest(env.digestOf, password, token), now)).Success? <==>
                Admitted(env.digestOf, later.world, token, password))
  {
    TokenAnswer(env, s.world, s.conns[id], now);
    var next := Next(env, s, Received(id, TokenRequest(), now));
    ConnectionsPersist(env, next, between, id);
    var later := Run(env, next, between);
    AuthAnswer(env, later.world, later.conns[id], password, now);
  }

  /** A right answer for another connection's token is refused, unless the two texts collide. */
  lemma ForeignTokenRefused(env: Env, w: World, token: string, foreign: string)
    requires HasPassword(w) && token != foreign
    ensures Accepts(env.digestOf, w.settings, token, Md5(env.digestOf, Stored(w.settings) + foreign)) <==>
            Collision(env.digestOf, Stored(w.settings) + foreign, Stored(w.settings) + token)
  {
    var p := Stored(w.settings);
    assert (p + foreign)[|p|..] == foreign && (p + token)[|p|..] == token;
  }

  /** After a password is set, it lets its owner in on any connection, and lets in nobody else without a collision. */
  lemma SetThenAuthenticate(env: Env, w: World, c: Conn, password: string, other: Conn, guess: string, now: int)
    requires c.authenticated
    ensures var after := Process(env, w, c, PasswordRequest(env.digestOf, password, c.token), now).0;
            && Process(env, after, other, AuthRequest(env.digestOf, password, other.token), now).2.Success?
            && (Process(env, after, other, AuthRequest(env.digestOf, guess, other.token), now).2.Success? ==>
                || guess == password
                || Collision(env.digestOf, guess, password)
                || Collision(env.digestOf, Md5(env.digestOf, guess) + other.token,
                             Md5(env.digestOf, password) + other.token))
  {
    PasswordAnswer(env, w, c, password, now);
    Md5Is32Digits(env.digestOf, password);
    var after := w.(settings := w.settings[PASSWORD := Md5(env.digestOf, password)]);
    AuthAnswer(env, after, other, password, now);
    AuthAnswer(env, after, other, guess, now);
  }
}
