/** What each request does, told by the text of its command and its data alone. */
module Requests {
  import opened Common
  import opened Tables
  import opened Crypto
  import opened Auth
  import opened Json
  import opened DomainListJson
  import opened Service
  import Blocklist

  // ---------------------------------------------------------------- reading a request

  /** The request carries this command text, and this value as its data; absent data is null. */
  predicate Asks(request: Option<Value>, cmd: string, data: Value) {
    && request.Some? && request.value.Object?
    && var members := request.value.members;
       && "command" in members && members["command"] == Text(cmd)
       && data == if "data" in members then members["data"] else Null
  }

  /** The word in any mixture of small and capital letters. */
  predicate Spells(cmd: string, word: string) {
    |cmd| == |word| && forall i :: 0 <= i < |cmd| ==> SameLetter(cmd[i], word[i])
  }

  predicate SameLetter(c: char, letter: char) {
    c == letter || ('a' <= letter <= 'z' && c as int + 32 == letter as int)
  }

  predicate Small(word: string) {
    forall i :: 0 <= i < |word| ==> !('A' <= word[i] <= 'Z')
  }

  lemma SpellsIff(cmd: string, word: string)
    requires Small(word)
    ensures Spells(cmd, word) <==> ToLower(cmd) == word
  {
    if Spells(cmd, word) {
      forall i | 0 <= i < |cmd| ensures ToLower(cmd)[i] == word[i] {
        assert SameLetter(cmd[i], word[i]);
      }
    }
    if ToLower(cmd) == word {
      forall i | 0 <= i < |cmd| ensures SameLetter(cmd[i], word[i]) {
        assert ToLower(cmd)[i] == word[i];
      }
    }
  }

  lemma CommandIs(request: Option<Value>, cmd: string, data: Value, word: string)
    requires Asks(request, cmd, data) && Small(word) && Spells(cmd, word)
    ensures RequestedCommand(request.value) == Returned(CommandOf(word))
    ensures Member(request.value, "data") == Returned(data)
  {
    SpellsIff(cmd, word);
  }

  lemma HandlerRuns(env: Env, w: World, c: Conn, request: Option<Value>, cmd: string, data: Value, command: Command,
                    now: int)
    requires c.authenticated && Asks(request, cmd, data) && CommandOf(ToLower(cmd)) == command
    requires command != GetToken && command != Authenticate
    ensures var (after, response) := Handle(env, w, c.token, command, data, now);
            Process(env, w, c, request, now) == (after, c, response)
  {
    assert RequestedCommand(request.value) == Returned(command);
    assert Member(request.value, "data") == Returned(data);
  }

  lemma BlockCmdSpelled(cmd: string)
    requires Spells(cmd, "block")
    ensures CommandOf(ToLower(cmd)) == BlockCmd
  {
    SpellsIff(cmd, "block");
  }

  lemma UnblockCmdSpelled(cmd: string)
    requires Spells(cmd, "unblock")
    ensures CommandOf(ToLower(cmd)) == UnblockCmd
  {
    SpellsIff(cmd, "unblock");
  }

  lemma ImportListSpelled(cmd: string)
    requires Spells(cmd, "import_domain_list")
    ensures CommandOf(ToLower(cmd)) == ImportList
  {
    SpellsIff(cmd, "import_domain_list");
  }

  lemma RemovePasswordSpelled(cmd: string)
    requires Spells(cmd, "remove_service_password")
    ensures CommandOf(ToLower(cmd)) == RemovePassword
  {
    SpellsIff(cmd, "remove_service_password");
  }

  lemma ReloadSpelled(cmd: string)
    requires Spells(cmd, "reload")
    ensures CommandOf(ToLower(cmd)) == Reload
  {
    SpellsIff(cmd, "reload");
  }

  lemma GetDomainsSpelled(cmd: string)
    requires Spells(cmd, "get_domains")
    ensures CommandOf(ToLower(cmd)) == GetDomains
  {
    SpellsIff(cmd, "get_domains");
  }

  lemma GetDomainSpelled(cmd: string)
    requires Spells(cmd, "get_domain")
    ensures CommandOf(ToLower(cmd)) == GetDomain
  {
    SpellsIff(cmd, "get_domain");
  }

  lemma GetListSpelled(cmd: string)
    requires Spells(cmd, "get_domain_list")
    ensures CommandOf(ToLower(cmd)) == GetList
  {
    SpellsIff(cmd, "get_domain_list");
  }

  lemma GetListsSpelled(cmd: string)
    requires Spells(cmd, "get_domain_lists")
    ensures CommandOf(ToLower(cmd)) == GetLists
  {
    SpellsIff(cmd, "get_domain_lists");
  }

  lemma StatusSpelled(cmd: string)
    requires Spells(cmd, "status")
    ensures CommandOf(ToLower(cmd)) == Status
  {
    SpellsIff(cmd, "status");
  }

  lemma GetVersionSpelled(cmd: string)
    requires Spells(cmd, "get_version")
    ensures CommandOf(ToLower(cmd)) == GetVersion
  {
    SpellsIff(cmd, "get_version");
  }

  lemma FlushDnsSpelled(cmd: string)
    requires Spells(cmd, "flush_dns")
    ensures CommandOf(ToLower(cmd)) == FlushDns
  {
    SpellsIff(cmd, "flush_dns");
  }

  lemma DeleteListSpelled(cmd: string)
    requires Spells(cmd, "delete_domain_list")
    ensures CommandOf(ToLower(cmd)) == DeleteList
  {
    SpellsIff(cmd, "delete_domain_list");
  }

  lemma SetPasswordSpelled(cmd: string)
    requires Spells(cmd, "set_service_password")
    ensures CommandOf(ToLower(cmd)) == SetPassword
  {
    SpellsIff(cmd, "set_service_password");
  }

  // ---------------------------------------------------------------- the two commands open to everyone

  /** get_token tells the token of the connection and changes nothing. */
  lemma TokenRequested(env: Env, w: World, c: Conn, request: Option<Value>, cmd: string, data: Value, now: int)
    requires Asks(request, cmd, data) && Spells(cmd, "get_token")
    ensures Process(env, w, c, request, now) == (w, c, Success(c.token))
  {
    CommandIs(request, cmd, data, "get_token");
  }

  /** auth succeeds while no password is stored, and otherwise exactly for the stored one hashed with this token. */
  lemma AuthRequested(env: Env, w: World, c: Conn, request: Option<Value>, cmd: string, data: Value,
                      hash: string, now: int)
    requires Asks(request, cmd, data) && Spells(cmd, "auth") && MemberText(data, "hash") == Returned(hash)
    ensures var open := PASSWORD !in w.settings || w.settings[PASSWORD] == "";
            var (after, conn, response) := Process(env, w, c, request, now);
            && after == w
            && (open || hash == Md5(env.digestOf, w.settings[PASSWORD] + c.token) ==>
                  conn == Conn(c.token, true) && response == Success(""))
            && (!open && hash != Md5(env.digestOf, w.settings[PASSWORD] + c.token) ==>
                  conn == c && response == Failure("Invalid auth", []))
  {
    CommandIs(request, cmd, data, "auth");
  }

  /** Any other command of a connection that is not authenticated is refused. */
  lemma OthersRefused(env: Env, w: World, c: Conn, request: Option<Value>, cmd: string, data: Value, now: int)
    requires Asks(request, cmd, data) && !c.authenticated && !Spells(cmd, "get_token") && !Spells(cmd, "auth")
    ensures Process(env, w, c, request, now) == (w, c, Failure("Not authenticated", []))
  {
    SpellsIff(cmd, "get_token");
    SpellsIff(cmd, "auth");
  }

  // ---------------------------------------------------------------- block and unblock

  /** The data holds an array of exactly these texts under this key. */
  predicate Holds(data: Value, key: string, names: seq<string>) {
    && data.Object? && key in data.members && data.members[key].Array?
    && |data.members[key].items| == |names|
    && forall i :: 0 <= i < |names| ==> data.members[key].items[i] == Text(names[i])
  }

  lemma {:induction false} TextsAre(items: seq<Value>, names: seq<string>)
    requires |items| == |names| && forall i :: 0 <= i < |names| ==> items[i] == Text(names[i])
    ensures Texts(items) == Returned(names)
  {
    if |items| > 0 {
      TextsAre(items[..|items| - 1], names[..|names| - 1]);
      assert names[..|names| - 1] + [names[|names| - 1]] == names;
    }
  }

  /** block performs one block batch into list 0, whether or not the batch is accepted. */
  lemma BlockRequested(env: Env, w: World, c: Conn, request: Option<Value>, cmd: string, data: Value,
                       names: seq<string>, now: int)
    requires c.authenticated && Asks(request, cmd, data) && Spells(cmd, "block") && Holds(data, "domains", names)
    ensures Process(env, w, c, request, now) ==
            (World(w.settings, Blocklist.Block(env.valid, w.store, names, 0).0, w.stopRequested), c, Success(""))
  {
    BlockCmdSpelled(cmd);
    HandlerRuns(env, w, c, request, cmd, data, BlockCmd, now);
    TextsAre(data.members["domains"].items, names);
  }

  /** unblock performs one unblock batch, whether or not the batch is accepted. */
  lemma UnblockRequested(env: Env, w: World, c: Conn, request: Option<Value>, cmd: string, data: Value,
                         names: seq<string>, now: int)
    requires c.authenticated && Asks(request, cmd, data) && Spells(cmd, "unblock") && Holds(data, "domains", names)
    ensures Process(env, w, c, request, now) ==
            (World(w.settings, Blocklist.Unblock(env.valid, w.store, names).0, w.stopRequested), c, Success(""))
  {
    UnblockCmdSpelled(cmd);
    HandlerRuns(env, w, c, request, cmd, data, UnblockCmd, now);
    TextsAre(data.members["domains"].items, names);
  }

  /** Domains that are no array are complained about, each command in its own words. */
  lemma NoArrayRefused(env: Env, w: World, c: Conn, request: Option<Value>, cmd: string, data: Value, now: int)
    requires c.authenticated && Asks(request, cmd, data) && (data.Null? || data.Object?)
    requires data.Object? && "domains" in data.members ==> !data.members["domains"].Array?
    ensures Spells(cmd, "block") ==>
            Process(env, w, c, request, now) == (w, c, Failure("Domains must be an array", []))
    ensures Spells(cmd, "unblock") ==>
            Process(env, w, c, request, now) == (w, c, Failure("Expected array of domains", []))
  {
    if Spells(cmd, "block") {
      BlockCmdSpelled(cmd);
      HandlerRuns(env, w, c, request, cmd, data, BlockCmd, now);
    } else if Spells(cmd, "unblock") {
      UnblockCmdSpelled(cmd);
      HandlerRuns(env, w, c, request, cmd, data, UnblockCmd, now);
    }
  }

  // ---------------------------------------------------------------- import_domain_list

  /** The flag of the data: absent, null, a truth value or a number, of which only 0 is false. */
  predicate Flagged(data: Value, key: string, flag: bool)
    requires data.Object?
  {
    if key !in data.members then !flag
    else
      match data.members[key]
      case Null => !flag
      case Bool(b) => flag == b
      case Number(n) => flag == (n != 0)
      case _ => false
  }

  /** import_domain_list imports what the object under domain_list decodes to. */
  lemma ImportRequested(env: Env, w: World, c: Conn, request: Option<Value>, cmd: string, data: Value, custom: bool,
                        now: int)
    requires c.authenticated && Asks(request, cmd, data) && Spells(cmd, "import_domain_list") && data.Object?
    requires "domain_list" in data.members && data.members["domain_list"].Object? && Flagged(data, "custom", custom)
    ensures var (lst, reading) := Decoded(env.valid, NO_LIST, data.members["domain_list"]);
            var (after, conn, response) := Process(env, w, c, request, now);
            && conn == c
            && (reading == Filled ==>
                  after == World(w.settings, Blocklist.Import(w.store, lst, custom, now), w.stopRequested) &&
                  response == Success(""))
            && (reading != Filled ==> after == w)
            && (reading == NotAnArray ==> response == Failure("Invalid format", []))
            && (reading == Stopped ==> response == Aborted)
  {
    ImportListSpelled(cmd);
    HandlerRuns(env, w, c, request, cmd, data, ImportList, now);
    ImportHandled(env, w, data, custom, now);
  }

  lemma ImportHandled(env: Env, w: World, data: Value, custom: bool, now: int)
    requires data.Object? && "domain_list" in data.members && data.members["domain_list"].Object?
    requires Flagged(data, "custom", custom)
    ensures var (lst, reading) := Decoded(env.valid, NO_LIST, data.members["domain_list"]);
            HandleImport(env, w, data, now) ==
            match reading
            case Filled =>
              (World(w.settings, Blocklist.Import(w.store, lst, custom, now), w.stopRequested), Success(""))
            case NotAnArray => (w, Failure("Invalid format", []))
            case Stopped => (w, Aborted)
  {
    assert AsBool(Member(data, "custom").value) == Returned(custom);
  }

  /** In particular an encoded list arrives: every valid name of it, and no other name, moves to the list so called. */
  lemma EncodedImportRequested(env: Env, w: World, c: Conn, request: Option<Value>, cmd: string, data: Value,
                               lst: DomainList, custom: bool, now: int)
    requires c.authenticated && Asks(request, cmd, data) && Spells(cmd, "import_domain_list") && data.Object?
    requires "domain_list" in data.members && data.members["domain_list"] == Object(Encoded(map[], lst))
    requires Flagged(data, "custom", custom)
    ensures var sent := NO_LIST.(name := lst.name, url := lst.url,
                                 description := Some(Blocklist.TextOf(lst.description)),
                                 domains := FreshDomains(Accepted(env.valid, DomainNames(lst.domains))));
            Process(env, w, c, request, now) ==
            (World(w.settings, Blocklist.Import(w.store, sent, custom, now), w.stopRequested), c, Success(""))
  {
    ImportRequested(env, w, c, request, cmd, data, custom, now);
    DecodeEncoded(env.valid, lst);
  }

  lemma NoObjectRefused(env: Env, w: World, c: Conn, request: Option<Value>, cmd: string, data: Value, now: int)
    requires c.authenticated && Asks(request, cmd, data) && (data.Null? || data.Object?)
    requires Spells(cmd, "import_domain_list")
    requires data.Object? && "domain_list" in data.members ==> !data.members["domain_list"].Object?
    ensures Process(env, w, c, request, now) == (w, c, Failure("Invalid data.", []))
  {
    ImportListSpelled(cmd);
    HandlerRuns(env, w, c, request, cmd, data, ImportList, now);
  }

  // ---------------------------------------------------------------- the password

  /** The condition on an offered password: both texts can be read, it looks like a hash, and this token was used. */
  predicate RightPassword(env: Env, c: Conn, data: Value) {
    && MemberText(data, "password_hash").Returned? && MemberText(data, "token_hash").Returned?
    && |MemberText(data, "password_hash").value| == 32
    && MemberText(data, "token_hash").value ==
       Md5(env.digestOf, MemberText(data, "password_hash").value + c.token)
  }

  /** set_service_password stores the offered hash exactly under that condition, and otherwise changes nothing. */
  lemma PasswordRequested(env: Env, w: World, c: Conn, request: Option<Value>, cmd: string, data: Value, now: int)
    requires Asks(request, cmd, data) && Spells(cmd, "set_service_password")
    ensures var (after, conn, response) := Process(env, w, c, request, now);
            && conn == c
            && (response == Success("") <==> c.authenticated && RightPassword(env, c, data))
            && (response == Success("") ==>
                  after == World(w.settings[PASSWORD := MemberText(data, "password_hash").value],
                                 w.store, w.stopRequested))
            && (response != Success("") ==> after == w)
  {
    CommandIs(request, cmd, data, "set_service_password");
    if MemberText(data, "password_hash").Returned? && MemberText(data, "token_hash").Returned? {
      PasswordErrorIff(env.digestOf, c.token, MemberText(data, "password_hash").value,
                       MemberText(data, "token_hash").value);
    }
  }

  /** So the settings change if and only if the condition holds and the hash is a new one. */
  lemma SettingsChangeIff(env: Env, w: World, c: Conn, request: Option<Value>, cmd: string, data: Value, now: int)
    requires Asks(request, cmd, data) && Spells(cmd, "set_service_password")
    ensures Process(env, w, c, request, now).0.settings != w.settings <==>
            && c.authenticated && RightPassword(env, c, data)
            && !(PASSWORD in w.settings && w.settings[PASSWORD] == MemberText(data, "password_hash").value)
  {
    PasswordRequested(env, w, c, request, cmd, data, now);
    if PASSWORD in w.settings {
      assert w.settings[PASSWORD := w.settings[PASSWORD]] == w.settings;
    }
    if RightPassword(env, c, data) {
      var p := MemberText(data, "password_hash").value;
      assert w.settings[PASSWORD := p][PASSWORD] == p;
    }
  }

  /** The three complaints about texts that can be read. */
  lemma PasswordComplaints(env: Env, w: World, c: Conn, request: Option<Value>, cmd: string, data: Value,
                           password: string, hashed: string, now: int)
    requires c.authenticated && Asks(request, cmd, data) && Spells(cmd, "set_service_password")
    requires MemberText(data, "password_hash") == Returned(password)
    requires MemberText(data, "token_hash") == Returned(hashed)
    requires !RightPassword(env, c, data)
    ensures Process(env, w, c, request, now) ==
            (w, c, Failure("Could not set password",
                           [if |password| == 0 then "Cannot set empty password"
                            else if |password| == 32 then "Token hashed with different password"
                            else "Password must be a md5 hash"]))
  {
    SetPasswordSpelled(cmd);
    HandlerRuns(env, w, c, request, cmd, data, SetPassword, now);
  }

  /** A token hash made for another connection's token is refused, unless the two texts collide. */
  lemma ForeignTokenHashRefused(env: Env, w: World, c: Conn, request: Option<Value>, cmd: string, data: Value,
                                password: string, foreign: string, now: int)
    requires c.authenticated && Asks(request, cmd, data) && Spells(cmd, "set_service_password")
    requires MemberText(data, "password_hash") == Returned(password) && |password| == 32 && foreign != c.token
    requires MemberText(data, "token_hash") == Returned(Md5(env.digestOf, password + foreign))
    ensures password + foreign != password + c.token
    ensures Process(env, w, c, request, now).2 == Success("") <==>
            Md5(env.digestOf, password + foreign) == Md5(env.digestOf, password + c.token)
  {
    PasswordRequested(env, w, c, request, cmd, data, now);
    assert (password + foreign)[32..] == foreign && (password + c.token)[32..] == c.token;
  }

  /** remove_service_password deletes the setting, and nothing else. */
  lemma RemovalRequested(env: Env, w: World, c: Conn, request: Option<Value>, cmd: string, data: Value, now: int)
    requires c.authenticated && Asks(request, cmd, data) && Spells(cmd, "remove_service_password")
    ensures var (after, conn, response) := Process(env, w, c, request, now);
            && conn == c && response == Success("")
            && PASSWORD !in after.settings && after.store == w.store && after.stopRequested == w.stopRequested
            && forall key :: key != PASSWORD ==>
                 (key in after.settings <==> key in w.settings) &&
                 (key in w.settings ==> after.settings[key] == w.settings[key])
  {
    RemovePasswordSpelled(cmd);
    HandlerRuns(env, w, c, request, cmd, data, RemovePassword, now);
  }

  /** From then on every auth whose hash can be read succeeds, on any connection. */
  lemma EveryAuthAfterRemoval(env: Env, w: World, c: Conn, removal: Option<Value>, cmd: string, data: Value,
                              other: Conn, auth: Option<Value>, authCmd: string, authData: Value,
                              hash: string, now: int)
    requires c.authenticated && Asks(removal, cmd, data) && Spells(cmd, "remove_service_password")
    requires Asks(auth, authCmd, authData) && Spells(authCmd, "auth") && MemberText(authData, "hash") == Returned(hash)
    ensures var after := Process(env, w, c, removal, now).0;
            Process(env, after, other, auth, now) == (after, Conn(other.token, true), Success(""))
  {
    RemovalRequested(env, w, c, removal, cmd, data, now);
    AuthRequested(env, Process(env, w, c, removal, now).0, other, auth, authCmd, authData, hash, now);
  }

  // ---------------------------------------------------------------- the other commands

  /** reload asks the worker to stop, and changes nothing else. */
  lemma ReloadRequested(env: Env, w: World, c: Conn, request: Option<Value>, cmd: string, data: Value, now: int)
    requires c.authenticated && Asks(request, cmd, data) && Spells(cmd, "reload")
    ensures Process(env, w, c, request, now) == (World(w.settings, w.store, true), c, Success(""))
  {
    ReloadSpelled(cmd);
    HandlerRuns(env, w, c, request, cmd, data, Reload, now);
  }

  /** Three commands only read. */
  lemma StatusRequested(env: Env, w: World, c: Conn, request: Option<Value>, cmd: string, data: Value, now: int)
    requires c.authenticated && Asks(request, cmd, data) && Spells(cmd, "status")
    ensures Process(env, w, c, request, now) == (w, c, Success(""))
  {
    StatusSpelled(cmd);
    HandlerRuns(env, w, c, request, cmd, data, Status, now);
  }

  lemma ListsRequested(env: Env, w: World, c: Conn, request: Option<Value>, cmd: string, data: Value, now: int)
    requires c.authenticated && Asks(request, cmd, data) && Spells(cmd, "get_domain_lists")
    ensures Process(env, w, c, request, now) == (w, c, Success(""))
  {
    GetListsSpelled(cmd);
    HandlerRuns(env, w, c, request, cmd, data, GetLists, now);
  }

  lemma VersionRequested(env: Env, w: World, c: Conn, request: Option<Value>, cmd: string, data: Value, now: int)
    requires c.authenticated && Asks(request, cmd, data) && Spells(cmd, "get_version")
    ensures Process(env, w, c, request, now) == (w, c, Success(""))
  {
    GetVersionSpelled(cmd);
    HandlerRuns(env, w, c, request, cmd, data, GetVersion, now);
  }

  /** Two are not implemented. */
  lemma FlushRequested(env: Env, w: World, c: Conn, request: Option<Value>, cmd: string, data: Value, now: int)
    requires c.authenticated && Asks(request, cmd, data) && Spells(cmd, "flush_dns")
    ensures Process(env, w, c, request, now) == (w, c, Failure("not implemented", []))
  {
    FlushDnsSpelled(cmd);
    HandlerRuns(env, w, c, request, cmd, data, FlushDns, now);
  }

  lemma DeletionRequested(env: Env, w: World, c: Conn, request: Option<Value>, cmd: string, data: Value, now: int)
    requires c.authenticated && Asks(request, cmd, data) && Spells(cmd, "delete_domain_list")
    ensures Process(env, w, c, request, now) == (w, c, Failure("not implemented", []))
  {
    DeleteListSpelled(cmd);
    HandlerRuns(env, w, c, request, cmd, data, DeleteList, now);
  }

  /** The two lookups want a name. */
  lemma ListRequested(env: Env, w: World, c: Conn, request: Option<Value>, cmd: string, data: Value, name: string,
                      flag: bool, now: int)
    requires c.authenticated && Asks(request, cmd, data) && Spells(cmd, "get_domain_list")
    requires data.Object? && MemberText(data, "name") == Returned(name) && Flagged(data, "with_domains", flag)
    ensures Process(env, w, c, request, now) ==
            (w, c, if |name| > 0 then Success("") else Failure("No name given.", []))
  {
    GetListSpelled(cmd);
    HandlerRuns(env, w, c, request, cmd, data, GetList, now);
  }

  lemma DomainRequested(env: Env, w: World, c: Conn, request: Option<Value>, cmd: string, data: Value, name: string,
                        now: int)
    requires c.authenticated && Asks(request, cmd, data) && Spells(cmd, "get_domain")
    requires MemberText(data, "name") == Returned(name)
    ensures Process(env, w, c, request, now) ==
            (w, c, if |name| > 0 then Success("") else Failure("No domain name given", []))
  {
    GetDomainSpelled(cmd);
    HandlerRuns(env, w, c, request, cmd, data, GetDomain, now);
  }

  /** The answer of get_domains: it wants one of two types, or the number of a list, an int other than 0. */
  predicate Listed(data: Value, kind: string, response: Response)
    requires data.Object?
  {
    var typed := kind == "blocked" || kind == "whitelisted";
    && (typed ==> response == Success(""))
    && (!typed && "list_id" !in data.members ==> response == Failure("Need type.", []))
    && (!typed && "list_id" in data.members && data.members["list_id"].Number? ==>
          var n := data.members["list_id"].number;
          response == if n == 0 then Failure("Need type.", [])
                      else if -2147483648 <= n <= 2147483647 then Success("")
                      else Aborted)
  }

  lemma ListingHandled(data: Value, kind: string)
    requires data.Object? && MemberText(data, "type") == Returned(kind)
    ensures Listed(data, kind, HandleGetDomains(data))
  {}

  lemma ListingRequested(env: Env, w: World, c: Conn, request: Option<Value>, cmd: string, data: Value, kind: string,
                         now: int)
    requires c.authenticated && Asks(request, cmd, data) && Spells(cmd, "get_domains")
    requires data.Object? && MemberText(data, "type") == Returned(kind)
    ensures var (after, conn, response) := Process(env, w, c, request, now);
            after == w && conn == c && Listed(data, kind, response)
  {
    GetDomainsSpelled(cmd);
    HandlerRuns(env, w, c, request, cmd, data, GetDomains, now);
    ListingHandled(data, kind);
  }

  lemma UnparsedRefused(env: Env, w: World, c: Conn, now: int)
    ensures Process(env, w, c, None, now) == (w, c, Failure("Invalid format", []))
  {}

  // ---------------------------------------------------------------- nothing else writes

  /** A command that spells none of these six words. */
  predicate WritesNothing(cmd: string) {
    && !Spells(cmd, "set_service_password") && !Spells(cmd, "remove_service_password") && !Spells(cmd, "reload")
    && !Spells(cmd, "block") && !Spells(cmd, "unblock") && !Spells(cmd, "import_domain_list")
  }

  lemma SixCommandsWrite(env: Env, w: World, token: string, cmd: Command, data: Value, now: int)
    requires Handle(env, w, token, cmd, data, now).0 != w
    ensures cmd == SetPassword || cmd == RemovePassword || cmd == Reload || cmd == BlockCmd || cmd == UnblockCmd
         || cmd == ImportList
  {}

  lemma WritersSpell(cmd: string)
    ensures CommandOf(ToLower(cmd)) in {SetPassword, RemovePassword, Reload, BlockCmd, UnblockCmd, ImportList} ==>
            !WritesNothing(cmd)
  {
    SmallIsLower(cmd);
    SpellsIff(cmd, ToLower(cmd));
  }

  lemma OnlyHandlersWrite(env: Env, w: World, c: Conn, request: Option<Value>, cmd: string, data: Value, now: int)
    requires Asks(request, cmd, data)
    ensures Process(env, w, c, request, now).0 == w ||
            (c.authenticated &&
             Process(env, w, c, request, now).0 == Handle(env, w, c.token, CommandOf(ToLower(cmd)), data, now).0)
  {
    assert RequestedCommand(request.value) == Returned(CommandOf(ToLower(cmd)));
    assert Member(request.value, "data") == Returned(data);
  }

  /** A request changes settings, lists, names or the stop request only when authenticated, and by one of the six. */
  lemma OthersChangeNothing(env: Env, w: World, c: Conn, request: Option<Value>, cmd: string, data: Value, now: int)
    requires Asks(request, cmd, data) && (!c.authenticated || WritesNothing(cmd))
    ensures Process(env, w, c, request, now).0 == w
  {
    OnlyHandlersWrite(env, w, c, request, cmd, data, now);
    WritersSpell(cmd);
    if Process(env, w, c, request, now).0 != w {
      SixCommandsWrite(env, w, c.token, CommandOf(ToLower(cmd)), data, now);
    }
  }

  /** The command of a request is a text. */
  predicate HasCommandText(request: Option<Value>) {
    request.Some? && request.value.Object? && "command" in request.value.members &&
    request.value.members["command"].Text?
  }

  /** Without one it is no command: null, a truth value or a number reads as a text that spells none. */
  lemma OddCommandsChangeNothing(env: Env, w: World, c: Conn, request: Option<Value>, now: int)
    requires !HasCommandText(request)
    ensures var (after, conn, response) := Process(env, w, c, request, now);
            after == w && conn == c && !response.Success?
  {
    if request.Some? {
      var read := MemberText(request.value, "command");
      if read.Returned? {
        OddTextsAreNone(Member(request.value, "command").value);
        assert CommandOf(ToLower(read.value)) == Unknown;
      }
    }
  }

  lemma OddTextsAreNone(v: Value)
    requires !v.Text? && AsString(v).Returned?
    ensures CommandOf(ToLower(AsString(v).value)) == Unknown
  {
    if v.Number? {
      DecimalReadsBack(v.number);
      NoLetterNoCommand(Decimal(v.number));
    } else if v.Bool? {
      assert ToLower("true") == "true" && ToLower("false") == "false";
    } else {
      assert ToLower("") == "";
    }
  }

  lemma NoLetterNoCommand(text: string)
    requires |text| > 0 && ('0' <= text[0] <= '9' || text[0] == '-')
    ensures CommandOf(ToLower(text)) == Unknown
  {
    assert ToLower(text)[0] == text[0];
  }

  /** A text that spells no command at all is unknown. */
  lemma UnknownRefused(env: Env, w: World, c: Conn, request: Option<Value>, cmd: string, data: Value, now: int)
    requires c.authenticated && Asks(request, cmd, data) && WritesNothing(cmd)
    requires !Spells(cmd, "get_token") && !Spells(cmd, "auth") && !Spells(cmd, "status") && !Spells(cmd, "flush_dns")
    requires !Spells(cmd, "get_domain_lists") && !Spells(cmd, "get_domain_list") && !Spells(cmd, "delete_domain_list")
    requires !Spells(cmd, "get_version") && !Spells(cmd, "get_domain") && !Spells(cmd, "get_domains")
    ensures Process(env, w, c, request, now) == (w, c, Failure("Unknown command", []))
  {
    UnspelledCommands(cmd);
  }

  lemma UnspelledCommands(cmd: string)
    ensures CommandOf(ToLower(cmd)) != Unknown ==>
            || !WritesNothing(cmd) || Spells(cmd, "get_token") || Spells(cmd, "auth") || Spells(cmd, "status")
            || Spells(cmd, "flush_dns") || Spells(cmd, "get_domain_lists") || Spells(cmd, "get_domain_list")
            || Spells(cmd, "delete_domain_list") || Spells(cmd, "get_version") || Spells(cmd, "get_domain")
            || Spells(cmd, "get_domains")
  {
    var word := ToLower(cmd);
    if CommandOf(word) != Unknown {
      SmallIsLower(cmd);
      SpellsIff(cmd, word);
    }
  }

  lemma SmallIsLower(cmd: string)
    ensures Small(ToLower(cmd))
  {}

  /** Capital letters make no difference. */
  lemma CapitalsSpell()
    ensures Spells("BLOCK", "block") && Spells("Unblock", "unblock") && Spells("RELOAD", "reload")
    ensures Spells("IMPORT_DOMAIN_LIST", "import_domain_list")
    ensures Spells("REMOVE_SERVICE_PASSWORD", "remove_service_password")
  {}
}
