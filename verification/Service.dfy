/** One service connection: the commands it accepts and what each does to the shared world. */
module Service {
  import opened Common
  import opened Tables
  import opened Managers
  import opened Crypto
  import opened Auth
  import opened Json
  import opened DomainListJson
  import Blocklist

  /** What every connection shares. */
  datatype World = World(settings: Settings, store: State, stopRequested: bool)

  /** What a connection keeps for itself. */
  datatype Conn = Conn(token: string, authenticated: bool)

  /** The fixed functions: name validity and the MD5 digest. */
  datatype Env = Env(valid: string -> bool, digestOf: string -> Digest)

  /** Aborted stands for the answer given when a JSON accessor throws. Read handlers succeed without their payload. */
  datatype Response =
    | Success(token: string)
    | Failure(message: string, details: seq<string>)
    | Aborted

  const DONE := Success("")

  datatype Command =
    | GetToken | Authenticate
    | Status | SetPassword | RemovePassword | FlushDns | BlockCmd | UnblockCmd | ImportList | GetLists | GetList
    | DeleteList | GetVersion | GetDomain | GetDomains | Reload
    | Unknown

  /** The command names, compared in turn. */
  function CommandOf(cmd: string): Command {
    if cmd == "get_token" then GetToken
    else if cmd == "auth" then Authenticate
    else if cmd == "status" then Status
    else if cmd == "set_service_password" then SetPassword
    else if cmd == "remove_service_password" then RemovePassword
    else if cmd == "flush_dns" then FlushDns
    else if cmd == "block" then BlockCmd
    else if cmd == "unblock" then UnblockCmd
    else if cmd == "import_domain_list" then ImportList
    else if cmd == "get_domain_lists" then GetLists
    else if cmd == "get_domain_list" then GetList
    else if cmd == "delete_domain_list" then DeleteList
    else if cmd == "get_version" then GetVersion
    else if cmd == "get_domain" then GetDomain
    else if cmd == "get_domains" then GetDomains
    else if cmd == "reload" then Reload
    else Unknown
  }

  function Failed(message: string): Response {
    Failure(message, [])
  }

  function Lower(c: char): char {
    if 'A' <= c <= 'Z' then (c as int + 32) as char else c
  }

  function ToLower(s: string): string {
    seq(|s|, i requires 0 <= i < |s| => Lower(s[i]))
  }

  /** The texts of a JSON array. */
  function Texts(items: seq<Value>): Attempt<seq<string>> {
    if |items| == 0 then Returned([])
    else
      var before :- Texts(items[..|items| - 1]);
      var last :- AsString(items[|items| - 1]);
      Returned(before + [last])
  }

  // ---------------------------------------------------------------- handlers

  function HandleSetPassword(env: Env, w: World, token: string, data: Value): (World, Response) {
    var password, hashed := MemberText(data, "password_hash"), MemberText(data, "token_hash");
    if password.Threw? || hashed.Threw? then (w, Aborted)
    else
      var error := PasswordError(env.digestOf, token, password.value, hashed.value);
      if error.Some? then (w, Failure("Could not set password", [error.value]))
      else (w.(settings := w.settings[PASSWORD := password.value]), DONE)
  }

  function HandleBlock(env: Env, w: World, data: Value): (r: (World, Response))
    ensures r.0.settings == w.settings
  {
    var domains := Member(data, "domains");
    if domains.Threw? then (w, Aborted)
    else if !domains.value.Array? then (w, Failed("Domains must be an array"))
    else
      var names := Texts(domains.value.items);
      if names.Threw? then (w, Aborted)
      else (w.(store := Blocklist.Block(env.valid, w.store, names.value, 0).0), DONE)
  }

  function HandleUnblock(env: Env, w: World, data: Value): (r: (World, Response))
    ensures r.0.settings == w.settings
  {
    var domains := Member(data, "domains");
    if domains.Threw? then (w, Aborted)
    else if !domains.value.Array? then (w, Failed("Expected array of domains"))
    else
      var names := Texts(domains.value.items);
      if names.Threw? then (w, Aborted)
      else (w.(store := Blocklist.Unblock(env.valid, w.store, names.value).0), DONE)
  }

  function HandleImport(env: Env, w: World, data: Value, now: int): (r: (World, Response))
    ensures r.0.settings == w.settings
  {
    var root := Member(data, "domain_list");
    if root.Threw? then (w, Aborted)
    else if !root.value.Object? then (w, Failed("Invalid data."))
    else
      var (lst, reading) := Decoded(env.valid, NO_LIST, root.value);
      var custom := AsBool(Member(data, "custom").value);
      if reading == NotAnArray then (w, Failed("Invalid format"))
      else if reading == Stopped || custom.Threw? then (w, Aborted)
      else (w.(store := Blocklist.Import(w.store, lst, custom.value, now)), DONE)
  }

  function HandleNamed(data: Value, complaint: string): Response {
    var name := MemberText(data, "name");
    if name.Threw? then Aborted else if name.value == "" then Failed(complaint) else DONE
  }

  function HandleGetList(data: Value): Response {
    var response := HandleNamed(data, "No name given.");
    if response == DONE && AsBool(Member(data, "with_domains").value).Threw? then Aborted else response
  }

  function HandleGetDomains(data: Value): Response {
    var kind := MemberText(data, "type");
    if kind.Threw? then Aborted
    else if kind.value == "blocked" || kind.value == "whitelisted" then DONE
    else
      var listId := AsInt(Member(data, "list_id").value);
      if listId.Threw? then Aborted else if listId.value == 0 then Failed("Need type.") else DONE
  }

  /** The commands that need an authenticated connection. */
  function Handle(env: Env, w: World, token: string, cmd: Command, data: Value, now: int): (World, Response) {
    match cmd
    case Status | GetLists | GetVersion => (w, DONE)
    case SetPassword => HandleSetPassword(env, w, token, data)
    case RemovePassword => (w.(settings := w.settings - {PASSWORD}), DONE)
    case FlushDns | DeleteList => (w, Failed("not implemented"))
    case BlockCmd => HandleBlock(env, w, data)
    case UnblockCmd => HandleUnblock(env, w, data)
    case ImportList => HandleImport(env, w, data, now)
    case GetList => (w, HandleGetList(data))
    case GetDomain => (w, HandleNamed(data, "No domain name given"))
    case GetDomains => (w, HandleGetDomains(data))
    case Reload => (w.(stopRequested := true), DONE)
    case _ => (w, Failed("Unknown command"))
  }

  function Dispatch(env: Env, w: World, c: Conn, cmd: Command, data: Value, now: int): (World, Conn, Response) {
    if cmd == GetToken then (w, c, Success(c.token))
    else if cmd == Authenticate then
      var hash := MemberText(data, "hash");
      if hash.Threw? then (w, c, Aborted)
      else if !Accepts(env.digestOf, w.settings, c.token, hash.value) then (w, c, Failed("Invalid auth"))
      else (w, c.(authenticated := true), DONE)
    else if !c.authenticated then (w, c, Failed("Not authenticated"))
    else
      var (after, response) := Handle(env, w, c.token, cmd, data, now);
      (after, c, response)
  }

  /** The command of a parsed request. */
  function RequestedCommand(root: Value): Attempt<Command> {
    var cmd :- MemberText(root, "command");
    Returned(CommandOf(ToLower(cmd)))
  }

  /** A request that is not JSON arrives as None. */
  function Process(env: Env, w: World, c: Conn, request: Option<Value>, now: int): (World, Conn, Response) {
    if request.None? then (w, c, Failed("Invalid format"))
    else
      var cmd := RequestedCommand(request.value);
      if cmd.Threw? then (w, c, Aborted)
      else Dispatch(env, w, c, cmd.value, Member(request.value, "data").value, now)
  }

  // ---------------------------------------------------------------- the mutable service

  class Backend {
    const db: Database
    const lists: DomainListManager
    const domains: DomainManager
    const settings: SettingsManager
    const digestOf: string -> Digest
    var stopRequested: bool

    constructor (db: Database, settings: SettingsManager, valid: string -> bool, digestOf: string -> Digest)
      requires db.Valid()
      ensures Valid() && this.db == db && this.settings == settings
      ensures Environment() == Env(valid, digestOf)
      ensures View() == World(settings.settings, db.Abstract(), false)
    {
      this.db, this.settings, this.digestOf := db, settings, digestOf;
      domains := new DomainManager(db, valid);
      lists := new DomainListManager(db);
      stopRequested := false;
    }

    ghost predicate Valid()
      reads db
    {
      db.Valid() && lists.db == db && domains.db == db && domains.lists.db == db
    }

    ghost function View(): World
      reads this, db, settings
    {
      World(settings.settings, db.Abstract(), stopRequested)
    }

    ghost function Environment(): Env {
      Env(domains.valid, digestOf)
    }
  }

  class ServiceConnection {
    const backend: Backend
    const auth: Auth
    var isAuthenticated: bool

    /** While no password is set a new connection counts as authenticated. */
    constructor (backend: Backend, token: string)
      ensures this.backend == backend && Wired()
      ensures View() == Conn(token, Accepts(backend.digestOf, backend.settings.settings, token, ""))
    {
      this.backend := backend;
      auth := new Auth(backend.settings, token, backend.digestOf);
      isAuthenticated := false;
      new;
      var ok := auth.Authenticate("");
      isAuthenticated := ok;
    }

    ghost predicate Wired() {
      auth.settings == backend.settings && auth.digestOf == backend.digestOf
    }

    ghost function View(): Conn
      reads this
    {
      Conn(auth.token, isAuthenticated)
    }

    method ProcessRequest(request: Option<Value>, now: int) returns (response: Response)
      requires Wired() && backend.Valid()
      modifies this, backend, backend.db, backend.settings
      ensures backend.Valid()
      ensures (backend.View(), View(), response) ==
              Process(backend.Environment(), old(backend.View()), old(View()), request, now)
    {
      if request.None? {
        return Failed("Invalid format");
      }
      var cmd := RequestedCommand(request.value);
      if cmd.Threw? {
        return Aborted;
      }
      response := DispatchCommand(cmd.value, Member(request.value, "data").value, now);
    }

    method TryAuthenticate(data: Value) returns (response: Response)
      requires Wired()
      modifies this`isAuthenticated
      ensures var hash := MemberText(data, "hash");
              var ok := hash.Returned? && Accepts(backend.digestOf, backend.settings.settings, auth.token, hash.value);
              && response == (if hash.Threw? then Aborted else if ok then DONE else Failed("Invalid auth"))
              && isAuthenticated == (old(isAuthenticated) || ok)
    {
      var hash := MemberText(data, "hash");
      if hash.Threw? {
        return Aborted;
      }
      var ok := auth.Authenticate(hash.value);
      if !ok {
        return Failed("Invalid auth");
      }
      isAuthenticated := true;
      response := DONE;
    }

    method DispatchCommand(cmd: Command, data: Value, now: int) returns (response: Response)
      requires Wired() && backend.Valid()
      modifies this, backend, backend.db, backend.settings
      ensures backend.Valid()
      ensures (backend.View(), View(), response) ==
              Dispatch(backend.Environment(), old(backend.View()), old(View()), cmd, data, now)
    {
      if cmd == GetToken {
        response := Success(auth.token);
      } else if cmd == Authenticate {
        response := TryAuthenticate(data);
      } else if !isAuthenticated {
        response := Failed("Not authenticated");
      } else {
        response := RunHandler(cmd, data, now);
      }
    }

    method RunHandler(cmd: Command, data: Value, now: int) returns (response: Response)
      requires Wired() && backend.Valid()
      modifies backend, backend.db, backend.settings
      ensures backend.Valid()
      ensures (backend.View(), response) ==
              Handle(backend.Environment(), old(backend.View()), auth.token, cmd, data, now)
    {
      match cmd {
        case Status | GetLists | GetVersion => response := DONE;
        case SetPassword => response := SetServicePassword(data);
        case RemovePassword =>
          var _ := auth.RemovePassword();
          response := DONE;
        case FlushDns | DeleteList => response := Failed("not implemented");
        case BlockCmd => response := BlockNames(data);
        case UnblockCmd => response := UnblockNames(data);
        case ImportList => response := ImportDomainList(data, now);
        case GetList => response := HandleGetList(data);
        case GetDomain => response := HandleNamed(data, "No domain name given");
        case GetDomains => response := HandleGetDomains(data);
        case Reload =>
          backend.stopRequested := true;
          response := DONE;
        case _ => response := Failed("Unknown command");
      }
    }

    method SetServicePassword(data: Value) returns (response: Response)
      requires Wired()
      modifies backend.settings
      ensures (backend.View(), response) ==
              HandleSetPassword(backend.Environment(), old(backend.View()), auth.token, data)
    {
      var password, hashed := MemberText(data, "password_hash"), MemberText(data, "token_hash");
      if password.Threw? || hashed.Threw? {
        return Aborted;
      }
      var ok, errors := auth.SetPassword(password.value, hashed.value, []);
      assert !ok ==> errors == [PasswordError(auth.digestOf, auth.token, password.value, hashed.value).value];
      response := if ok then DONE else Failure("Could not set password", errors);
    }

    /** The loop that collects the names of a request. */
    method CollectTexts(items: seq<Value>) returns (names: Attempt<seq<string>>)
      ensures names == Texts(items)
    {
      names := Returned([]);
      for i := 0 to |items|
        invariant names.Returned? && names == Texts(items[..i])
      {
        assert items[..i + 1][..i] == items[..i];
        var text := AsString(items[i]);
        if text.Threw? {
          TextsStuck(items, i + 1);
          return Threw;
        }
        names := Returned(names.value + [text.value]);
      }
      assert items[..|items|] == items;
    }

    method BlockNames(data: Value) returns (response: Response)
      requires backend.Valid()
      modifies backend.db
      ensures backend.Valid()
      ensures (backend.View(), response) == HandleBlock(backend.Environment(), old(backend.View()), data)
    {
      var domains := Member(data, "domains");
      if domains.Threw? {
        return Aborted;
      }
      if !domains.value.Array? {
        return Failed("Domains must be an array");
      }
      var names := CollectTexts(domains.value.items);
      if names.Threw? {
        return Aborted;
      }
      var _ := backend.domains.BlockDomains(names.value, 0);
      response := DONE;
    }

    method UnblockNames(data: Value) returns (response: Response)
      requires backend.Valid()
      modifies backend.db
      ensures backend.Valid()
      ensures (backend.View(), response) == HandleUnblock(backend.Environment(), old(backend.View()), data)
    {
      var domains := Member(data, "domains");
      if domains.Threw? {
        return Aborted;
      }
      if !domains.value.Array? {
        return Failed("Expected array of domains");
      }
      var names := CollectTexts(domains.value.items);
      if names.Threw? {
        return Aborted;
      }
      var _ := backend.domains.UnblockDomains(names.value);
      response := DONE;
    }

    method ImportDomainList(data: Value, now: int) returns (response: Response)
      requires backend.Valid()
      modifies backend.db
      ensures backend.Valid()
      ensures (backend.View(), response) == HandleImport(backend.Environment(), old(backend.View()), data, now)
    {
      var root := Member(data, "domain_list");
      if root.Threw? {
        return Aborted;
      }
      if !root.value.Object? {
        return Failed("Invalid data.");
      }
      var lst := new DomainListObject(NO_LIST);
      var reading := lst.InitFromJson(backend.domains.valid, root.value);
      if reading == NotAnArray {
        return Failed("Invalid format");
      }
      var custom := AsBool(Member(data, "custom").value);
      if reading == Stopped || custom.Threw? {
        return Aborted;
      }
      var _ := backend.lists.ImportList(lst.record, custom.value, now);
      response := DONE;
    }
  }

  lemma {:induction false} TextsStuck(items: seq<Value>, i: nat)
    requires i <= |items| && Texts(items[..i]).Threw?
    ensures Texts(items).Threw?
    decreases |items|
  {
    if i == |items| {
      assert items[..i] == items;
    } else {
      assert items[..|items| - 1][..i] == items[..i];
      TextsStuck(items[..|items| - 1], i);
    }
  }
}
