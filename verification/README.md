# A verified model of dnsblocker

dnsblocker is a DNS-blocking daemon written in C++. It keeps lists of domain names in a SQL database, generates the
configuration of a DNS proxy from them, serves a JSON command protocol and answers HTTP requests for blocked names.
This project models the parts of it that carry state and proves what they keep, in Dafny 4.11.

    dafny verify dfyconfig.toml

| file | what it models |
|---|---|
| `Common.dfy` | name filtering, the byte order of names |
| `Tables.dfy` | the tables `domain_lists` and `domains` as sequences of rows, the statements run on them, and the map from name to list they denote |
| `Blocklist.dfy` | what block, unblock, import, create, remove and enable do to that map, each as one pointwise update |
| `Managers.dfy` | `DomainManager` and `DomainListManager` as classes over the mutable tables: loops over statements, with rollback |
| `Runs.dfy`, `Whitelisting.dfy`, `Batches.dfy` | whole runs of store operations: invariants, how long whitelisting lasts, batch composition |
| `Queries.dfy` | the join queries row by row, their order, their partitions, `count_blocked` |
| `Json.dfy`, `DomainListJson.dfy` | JSON values and accessors, the coding of domain lists, the export/import cycle |
| `Template.dfy` | template rendering in arbitrary key order |
| `Crypto.dfy`, `Auth.dfy`, `Service.dfy`, `Requests.dfy`, `Protocol.dfy`, `Session.dfy`, `Effects.dfy` | hex digests, the password check, one connection, what each request does by its text, all connections interleaved, the client, and what the protocol does to the store |
| `Http.dfy`, `Responder.dfy` | header parsing and printing, the HTTP responder and its hit counters |
| `DnsProxy.dfy` | the Unbound and dnsmasq writers and the relation both files denote |
| `Startup.dfy`, `WorkerLoop.dfy` | the master/worker handshake and the worker's timed wait loop as transition systems over all interleavings |

The code decides where it disagrees with its own messages or with what its names suggest:

- `block_domains` never moves a whitelisted name, although the management code announces that a name given to both
  options "will be blocked" (src/dbl/mgmt/mgmt.cxx:78). `Whitelisting.ConflictOutcome` is the exact condition under
  which it is: the store has no real whitelist, and the CUSTOM list is missing or enabled.
  `Whitelisting.ConflictingNameStaysWhitelisted` is the failing case.
- `unblock_domains` looks its list up by name. A list called WHITELIST that was removed and created again is not a
  whitelist, so unblocking then blocks. `Whitelisting.UnblockIsEffective` says exactly when unblocking works,
  `Whitelisting.RecreatedWhitelistBlocks` shows the failing case.
- The proxy writers use `get(0)`, not `get_blocked`, so a whitelisted name is written to the proxy configuration
  whenever its list is enabled: `DnsProxy.WrittenIffActive`, `DnsProxy.WhitelistedIsWritten`.
- `count_blocked` uses a LEFT JOIN and so counts every row: `Queries.CountBlockedIsExact` gives the exact condition
  under which it is the number of blocked names.
- A stop request takes effect at once unless its notification is lost: `WorkerLoop.HeardStopIsImmediate`. It is lost in
  exactly two places, between the test of the flag and the wait, and in a wait whose interval is already over:
  `WorkerLoop.NotifyIsLostIff`. In the first the worker can still wait a whole interval and update once more:
  `WorkerLoop.LostNotifyCostsAnInterval`. `WorkerLoop.PassFollowsIff` is the exact condition on a given schedule.
- A server that cannot be created ends the worker with status 0, so that status does not say that it served:
  `Startup.StatusTellsService` says what either status means, `Startup.FailedServerRun` is the run.
- Rendering can depend on the order in which the hash map yields its keys. For keys and values without `$` no order
  matters to any template that asks for defined keys only if and only if, wherever a key k begins a key k + s, the value
  of k + s is the value of k followed by s: `Template.OrdersAgreeIffCoherent`. With a `$` in a value, or a `$` in the
  template that a value completes to a key, `Template.DollarInValueDecides` and `Template.UnsettledDollarDecides` say
  whether the orders agree. The Unbound template uses the undefined placeholder PIDFILE, so the positive theorem does
  not ask every `$` to start a key, only that no key begins what the substitution makes of the text behind any other
  `$`. That condition is exact for a render that gives the substitution and can be repeated:
  `Template.RendersOnceIffSettled`.
- A configured status text with a colon makes the responder's status line read as a header, and one with carriage
  returns adds lines: `Responder.ReplyReadsBack` is an equivalence for every status text.

Modelling assumptions: name validity (`getaddrinfo`) is a fixed predicate; MD5 is any function to sixteen bytes, and
results about passwords name the two texts that would have to collide instead of assuming that there are no
collisions; a transaction commits or changes nothing; `strftime('now')` and connection tokens are parameters. The
semaphore between master and worker starts at 0, although the shared memory it lies in is allocated as raw bytes and
its constructor never runs (src/dbl/ipc/ipc.hxx). A waiting thread that has been notified returns before its interval is
over and without a time-out; spurious wakeups can end a wait at any moment.

## Model

| member | source | states |
|---|---|---|
| `Tables.Database.Init` | src/dbl/db/db.cxx:44-56 | the two seed lists appear exactly when there are no lists; names are never touched |
| `Tables.Database.DeleteListRow` | src/dbl/db/ddl/ddl.hxx:32-38 | deleting a list removes exactly the names that belonged to it |
| `Tables.DeleteNameRefines` | src/dbl/manager/domain_manager.cxx:169-174 | the row-level DELETE keeps names unique and drops the one name from the map, unless a kept list owns it |
| `Tables.DeleteCascadeRefines` | src/dbl/db/ddl/ddl.hxx:36-37 | the cascade keeps names unique and drops exactly the entries of the given lists from the map |
| `Tables.AsMapEntries` | src/dbl/db/ddl/ddl.hxx:32-38 | with a primary key on the name, rows and map entries are the same thing |
| `Tables.MaxIdIsUsed` | src/dbl/db/ddl/ddl.hxx:22 | the next id follows one in use, and is 1 in an empty table |
| `Common.LessIff` | src/dbl/db/dml/queries.hxx:17 | the order of names: the first byte in which two texts differ decides, and a text comes after its own beginnings |
| `Managers.DomainManager.FilterValid` | src/dbl/manager/domain_manager.cxx:16-32 | keeps exactly the valid names, with order and duplicates |
| `Managers.DomainManager.MoveUnlessWhitelisted` | src/dbl/manager/domain_manager.cxx:165-192 | delete-then-insert-or-ignore over the rows is one override of the names no whitelist holds; it is refused, and nothing changes, exactly when such a name exists and the target list does not |
| `Managers.DomainManager.BlockDomains` | src/dbl/manager/domain_manager.cxx:149-193 | the mutable tables afterwards denote the pointwise block update, with its result |
| `Managers.DomainManager.UnblockDomains` | src/dbl/manager/domain_manager.cxx:195-226 | the mutable tables afterwards denote the update of the valid names into WHITELIST, which `Batches.UnblockPointwise` spells out, or are unchanged when there is no such list |
| `Managers.DomainListManager.Create` | src/dbl/manager/domain_list_manager.cxx:16-45 | an existing name is left alone, an empty one means CUSTOM, and the answered id is that of an existing list of that name |
| `Managers.DomainListManager.ImportList` | src/dbl/manager/domain_list_manager.cxx:47-97 | the insert-or-replace loop denotes one override of all names of the list, valid or not, plus a new mtime |
| `Managers.DomainListManager.RemoveList` | src/dbl/manager/domain_list_manager.cxx:179-193 | the list and exactly its names are gone |
| `Managers.DomainListManager.Enable` | src/dbl/manager/domain_list_manager.cxx:195-214 | the active flag of the rows with that name takes the given value; every other field, row and name stays |
| `Managers.DomainListManager.GetList` | src/dbl/manager/domain_list_manager.cxx:144-176 | the named list, or the default record when there is none; its names, when asked for, are in strictly ascending order and exactly those of the list while it is active |
| `Managers.FetchDomains` | src/dbl/manager/domain_manager.cxx:34-65 | strictly ascending in name, and exactly the rows of active lists, restricted to the given list unless it is 0 |
| `Managers.DomainManager.GetByName` | src/dbl/manager/domain_manager.cxx:67-86 | the one row `get(0)` has for the name, and the default record when it has none |
| `Managers.DomainManager.GetBlocked` | src/dbl/manager/domain_manager.cxx:88-117 | strictly ascending in name, and exactly the rows of active lists that are no whitelist |
| `Managers.DomainManager.GetWhitelisted` | src/dbl/manager/domain_manager.cxx:119-147 | exactly the rows of active whitelists, each name once, in no promised order |
| `Managers.DomainManager.CountBlocked` | src/dbl/manager/domain_manager.cxx:228-248 | the number of rows of the table, and so the number of blocked names exactly when every row lies in an active list that is no whitelist |
| `Runs.StepInvariant` | src/dbl/db/ddl/ddl.hxx:20-38 | every operation keeps list ids and names unique, list names non-empty, every name's list existing, and only WHITELIST a whitelist |
| `Runs.ReachableInvariant` | src/dbl/db/ddl/ddl.hxx:20-38 | the same for every state any sequence of operations reaches from an empty database, with at most one whitelist |
| `Runs.Execute` | src/dbl/manager/domain_manager.cxx:149-226 | the mutable managers, driven through any sequence of operations, end where the specification ends |
| `Runs.NewListIsEmpty` | src/dbl/manager/domain_list_manager.cxx:16-45 | a list that did not exist starts without names, even if its id was used before |
| `Runs.RemoveUndoesCreate` | src/dbl/manager/domain_list_manager.cxx:179-193 | removing a list that was just created gives back the whole former state |
| `Runs.RemovedIdIsReused` | src/dbl/db/ddl/ddl.hxx:22 | ids are in fact reused after a removal |
| `Whitelisting.EvictionIsExact` | src/dbl/manager/domain_manager.cxx:169-186 | one operation takes a name out of the whitelist if and only if it removes WHITELIST or imports the name into another list |
| `Whitelisting.WhitelistedThroughout` | src/dbl/manager/domain_manager.cxx:169-186 | a name is whitelisted at every point of a run if and only if no operation of the run is one of those |
| `Whitelisting.UnblockPersists` | src/dbl/manager/domain_manager.cxx:211-218 | from the seeded database with WHITELIST kept, an unblocked valid name is whitelisted and not blocked after any run that does not evict it |
| `Whitelisting.UnblockIsEffective` | src/dbl/manager/domain_manager.cxx:211-214 | exactly when a name is still blocked after unblocking it |
| `Whitelisting.RecreatedWhitelistBlocks` | src/dbl/manager/domain_list_manager.cxx:24-27 | from any state, removing WHITELIST and creating it again, with whatever url, description and custom flag, makes unblocking block |
| `Whitelisting.ConflictOutcome` | src/dbl/mgmt/mgmt.cxx:59-94 | from any well-formed store, a valid name unblocked and then blocked in one command is blocked if and only if there is no real whitelist and CUSTOM is missing or enabled |
| `Whitelisting.ConflictingNameStaysWhitelisted` | src/dbl/mgmt/mgmt.cxx:59-94 | the failing case of the announcement: with a real whitelist, a name unblocked and then blocked in one command ends up whitelisted and not blocked |
| `Whitelisting.BlockedIsReturned` | src/dbl/db/dml/queries.hxx:11-18 | `get_blocked` has a row for a name if and only if the name's list is active and no whitelist |
| `Batches.BlockPointwise` | src/dbl/manager/domain_manager.cxx:149-193 | what a block does to each single name, and the exact condition of its success |
| `Batches.BlockHome` | src/dbl/manager/domain_manager.cxx:149-163 | where a block puts its names: the list asked for, or the list called CUSTOM, which is then the only list that may be new |
| `Batches.UnblockPointwise` | src/dbl/manager/domain_manager.cxx:195-226 | what an unblock does to each single name: it moves to WHITELIST if and only if the batch has it, it is valid and that list exists, and stays otherwise; the lists stay; success if and only if there is a valid name and that list |
| `Batches.CreateInFull` | src/dbl/manager/domain_list_manager.cxx:16-45 | a taken name changes nothing; otherwise one list is appended, enabled and no whitelist, with its fields and an id above all others; no name means CUSTOM |
| `Batches.ImportPointwise` | src/dbl/manager/domain_list_manager.cxx:47-97 | what an import does to each single name, valid or not, and to each list |
| `Batches.RemovePointwise` | src/dbl/manager/domain_list_manager.cxx:179-193 | what a removal does to each single name and each list |
| `Batches.BlockConcat` | src/dbl/manager/domain_manager.cxx:149-193 | blocking `a ++ b` is blocking `a` and then `b`, also when batches are refused |
| `Batches.BlockConcatFlag` | src/dbl/manager/domain_manager.cxx:149-193 | its result is that of the parts: at least one succeeds, and each part that has a valid name does |
| `Batches.UnblockConcat` | src/dbl/manager/domain_manager.cxx:195-226 | the same for unblocking, which succeeds if and only if one of the parts does |
| `Batches.ImportConcat` | src/dbl/manager/domain_list_manager.cxx:77-87 | the same for importing one list in two parts |
| `Batches.ImportTwice` | src/dbl/manager/domain_list_manager.cxx:77-87 | a second import of the same list leaves what one import at the later time leaves |
| `Batches.ImportTimesAgree` | src/dbl/manager/domain_list_manager.cxx:84-87 | imports at different times differ in nothing but the list's mtime |
| `Queries.OrderedResults` | src/dbl/db/dml/queries.hxx:11-39 | each ordered query returns exactly the joining rows, strictly ascending in name |
| `Queries.ExportedHeader` | src/dbl/db/dml/queries.hxx:29-32 | the record of a stored list carries every field of its row |
| `Queries.ResultsInFull` | src/dbl/db/dml/queries.hxx:11-46 | a row of each query is a stored name with the id and the name of its list, and which lists count |
| `Queries.OrderKeepsRows` | src/dbl/manager/domain_manager.cxx:52 | ordering loses and invents no row |
| `Queries.ActiveIsBlockedOrWhitelisted` | src/dbl/db/dml/queries.hxx:11-39 | `get(0)` is the multiset union of `get_blocked` and `get_whitelisted` |
| `Queries.BlockedAndWhitelistedAreDisjoint` | src/dbl/db/dml/queries.hxx:11-39 | no name is in both |
| `Queries.ActiveIsUnionOfLists` | src/dbl/manager/domain_manager.cxx:45-53 | `get(0)` is the multiset union of `get(id)` over all lists |
| `Queries.LookupMatchesActive` | src/dbl/manager/domain_manager.cxx:75-78 | `get(name)` finds a row exactly when `get(0)` has one for the name, and it is that row |
| `Queries.CountBlockedIsExact` | src/dbl/manager/domain_manager.cxx:232-235 | `count_blocked` is the number of rows, never below the size of `get_blocked`, and equal to it exactly when every row lies in an active list that is no whitelist |
| `DomainListJson.DomainListObject.InitFromJson` | src/dbl/types/domain_list.cxx:12-51 | the fields set, and the names pushed, up to where decoding ends, and whether it returned, refused domains that are no array, or was stopped by an accessor |
| `DomainListJson.DomainListObject.ToJson` | src/dbl/types/domain_list.cxx:53-67 | the members written over those already there |
| `DomainListJson.StuckEntries` | src/dbl/types/domain_list.cxx:34-49 | entries after one that throws are never looked at |
| `DomainListJson.NamelessEntryPassed` | src/dbl/types/domain_list.cxx:33-35 | an entry whose name is missing or empty is passed over |
| `DomainListJson.NoArrayNoDomains` | src/dbl/types/domain_list.cxx:28-31 | domains that are neither an array nor empty are refused |
| `DomainListJson.NoTextStops` | src/dbl/types/domain_list.cxx:16-26 | a member that is no text stops the decoding there, with the members before it set |
| `DomainListJson.EncodedInFull` | src/dbl/types/domain_list.cxx:53-67 | which members an encoded list has, and that all others stay as they were |
| `DomainListJson.EncodedDomainReads` | src/dbl/types/domain.cxx:30-43 | the members of an encoded name read back as its name, list id and list name |
| `DomainListJson.EmptyMembersKept` | src/dbl/types/domain_list.cxx:16-30 | missing or empty members leave the object as it is |
| `DomainListJson.DecodeEncodedOver` | src/dbl/types/domain_list.cxx:12-67 | decoding an encoded list over any object: which fields are replaced, and that the valid names come behind those already there |
| `DomainListJson.DecodeEncoded` | src/dbl/types/domain_list.cxx:12-67 | decoding an encoded list into a fresh object restores name, url and description (absent becomes empty) and the valid names in order |
| `DomainListJson.ReceivedIs` | src/dbl/types/domain_list.cxx:12-67 | what the cycle export, encode, decode gives of a stored list: its fields, and exactly its valid names if it is active |
| `DomainListJson.ExportImportIsIdentity` | src/dbl/manager/domain_list_manager.cxx:47-97 | exporting a stored list, encoding, decoding and importing it changes only its mtime, whatever counts as valid |
| `DomainListJson.ImportRestoresRemoved` | src/dbl/manager/domain_list_manager.cxx:47-97 | exporting a list, removing it and importing what was exported brings the list back, with its valid names if it was active and with none otherwise, and touches no other list or name |
| `Template.Template.Render` | src/dbl/template/template.cxx:29-37 | the in-place result is that of some order of the keys, and under the conditions of the next row the simultaneous substitution |
| `Template.EveryOrderSubstitutes` | src/dbl/template/template.cxx:29-37 | with `$`-free, coherent keys and values and a settled template (behind a `$` that starts no key, no key begins what the substitution makes of the text), every order gives the simultaneous substitution |
| `Template.PassKeepsMeaning` | src/dbl/template/template.cxx:31-34 | under those conditions one in-place `replace_all` pass does not change what the simultaneous substitution makes of the text |
| `Template.PassUsesKey` | src/dbl/template/template.cxx:31-34 | after the pass of a key no `$` waits for that key any more, and none has come to wait for another |
| `Template.OrdersAgreeIffCoherent` | src/dbl/template/template.cxx:29-37 | for `$`-free keys and values, all orders agree on every template that asks for defined keys only if and only if the keys are coherent |
| `Template.PrefixFreeOrdersAgree` | src/dbl/template/template.cxx:29-37 | in particular no order matters to such a template when no key begins another one |
| `Template.DollarFreeIffComplete` | src/dbl/template/template.cxx:29-37 | the result has no `$` if and only if every `$` of the template starts a defined key |
| `Template.RenderTwice` | src/dbl/template/template.cxx:29-37 | rendering again, in any order, changes nothing |
| `Template.RendersOnceIffSettled` | src/dbl/template/template.cxx:29-37 | the condition on the template is exact: all orders give the substitution and any second render changes nothing if and only if it is settled |
| `Template.UndefinedPlaceholderIsSettled` | etc/dnsblocker/templates/unbound.conf:8 | a placeholder no key is comparable with does not endanger the condition on the template |
| `Template.OverlappingKeysConflict` | src/dbl/template/template.cxx:31-34 | for any key k that begins a key m: an order that starts with k and one that starts with m agree on `$m` if and only if the value of m is the value of k and the rest of m |
| `Template.DollarInValueDecides` | src/dbl/template/template.cxx:29-37 | for two keys a and b, the value of a bringing in the `$` of b: all orders agree on `$a` if and only if b stands for itself |
| `Template.UnsettledDollarDecides` | src/dbl/template/template.cxx:29-37 | for two keys, and a `$` followed by the beginning of one and by the other, whose value supplies the rest: the orders never agree |
| `Crypto.HexDigest` | src/dbl/util/crypto.cxx:18-25 | the printing loop yields two padded digits for each byte |
| `Crypto.HexByte` | src/dbl/util/crypto.cxx:20-23 | any byte prints as two lowercase digits that give it back |
| `Crypto.HexRoundTrip` | src/dbl/util/crypto.cxx:18-25 | printing is invertible and has two lowercase hex digits a byte |
| `Crypto.Md5Is32Digits` | src/dbl/auth/auth.cxx:48-51 | every printed digest passes the server's length check |
| `Auth.Auth.Authenticate` | src/dbl/auth/auth.cxx:22-37 | accepts anything while no password is stored, and otherwise exactly the hash of the stored password with this connection's token |
| `Auth.Auth.SetPassword` | src/dbl/auth/auth.cxx:39-61 | succeeds if and only if the hash has 32 characters and the token hash is that of the hash with this connection's token; the setting changes only then, and each refusal has its own text |
| `Auth.SettingsManager.Get` | src/dbl/manager/settings_manager.cxx:12-27 | a missing or empty value reads as the default |
| `Service.ServiceConnection.constructor` | src/dbl/service/server/service_connection.cxx:19-27 | a connection opens authenticated exactly while no password is stored |
| `Service.ServiceConnection.ProcessRequest` | src/dbl/service/server/service_connection.cxx:29-72 | the mutable connection follows the transition function, which `Requests` spells out: world, flag and response |
| `Service.ServiceConnection.BlockNames` | src/dbl/service/server/service_connection.cxx:165-182 | a block request either fails without effect or performs one block batch |
| `Service.ServiceConnection.ImportDomainList` | src/dbl/service/server/service_connection.cxx:224-237 | an import request either fails without effect, telling a complaint from a throwing accessor, or imports the decoded list |
| `Requests.TokenRequested` | src/dbl/service/server/service_connection.cxx:82-84 | a request that spells get_token, in any mixture of capital and small letters, is told the token |
| `Requests.AuthRequested` | src/dbl/service/server/service_connection.cxx:85-93 | auth succeeds exactly while no password is stored or for the stored one hashed with this token |
| `Requests.OthersRefused` | src/dbl/service/server/service_connection.cxx:94-96 | any other command of an unauthenticated connection is refused |
| `Requests.BlockRequested` | src/dbl/service/server/service_connection.cxx:165-182 | an authenticated block request performs exactly one block batch of its texts into list 0 |
| `Requests.UnblockRequested` | src/dbl/service/server/service_connection.cxx:184-200 | an authenticated unblock request performs exactly one unblock batch of its texts |
| `Requests.NoArrayRefused` | src/dbl/service/server/service_connection.cxx:172-190 | domains that are no array are refused, each command in its own words |
| `Requests.ImportRequested` | src/dbl/service/server/service_connection.cxx:224-237 | an authenticated import request imports what its list decodes to, with its custom flag, or fails without effect |
| `Requests.EncodedImportRequested` | src/dbl/service/server/service_connection.cxx:224-237 | so an encoded list arrives with its valid names |
| `Requests.PasswordRequested` | src/dbl/service/server/service_connection.cxx:201-214 | a password request succeeds, and stores the hash, if and only if the connection is authenticated, the hash has 32 characters and the token hash fits this connection; otherwise it changes nothing |
| `Requests.SettingsChangeIff` | src/dbl/service/server/service_connection.cxx:201-214 | the settings change if and only if, besides, the hash is not the stored one |
| `Requests.PasswordComplaints` | src/dbl/auth/auth.cxx:43-57 | which complaint a refused password gets |
| `Requests.ForeignTokenHashRefused` | src/dbl/auth/auth.cxx:53-57 | a token hash made for another connection is refused, unless two named texts collide |
| `Requests.RemovalRequested` | src/dbl/service/server/service_connection.cxx:216-222 | remove_service_password deletes that setting and nothing else |
| `Requests.EveryAuthAfterRemoval` | src/dbl/service/server/service_connection.cxx:216-222 | afterwards every auth succeeds, on any connection |
| `Requests.ReloadRequested` | src/dbl/service/server/service_connection.cxx:332-341 | reload asks the worker to stop and changes nothing else |
| `Requests.ListRequested` | src/dbl/service/server/service_connection.cxx:252-264 | get_domain_list wants a name |
| `Requests.DomainRequested` | src/dbl/service/server/service_connection.cxx:274-287 | get_domain wants a name |
| `Requests.ListingRequested` | src/dbl/service/server/service_connection.cxx:289-322 | get_domains wants one of two types or the number of a list |
| `Requests.OthersChangeNothing` | src/dbl/service/server/service_connection.cxx:99-146 | a request changes settings, lists, names or the stop request only on an authenticated connection and only by one of six commands |
| `Requests.OddCommandsChangeNothing` | src/dbl/service/server/service_connection.cxx:46-47 | a request without a text as its command does nothing, whatever it has instead |
| `Requests.UnknownRefused` | src/dbl/service/server/service_connection.cxx:142-145 | a text that spells no command is unknown |
| `Protocol.StepGrants` | src/dbl/service/server/service_connection.cxx:82-97 | one event authenticates a connection by exactly three ways |
| `Protocol.AuthenticatedIffGranted` | src/dbl/service/server/service_connection.cxx:19-97 | in every interleaving a connection is authenticated if and only if an earlier event let it in by one of those ways |
| `Protocol.ConnectionsPersist` | src/dbl/service/server/service_connection.cxx:85-92 | the flag never goes back to false and the token never changes |
| `Protocol.UnauthenticatedChangesNothing` | src/dbl/service/server/service_connection.cxx:94-96 | no step of an unauthenticated connection changes settings, lists or domains |
| `Protocol.UnauthenticatedHasNoInfluence` | src/dbl/service/server/service_connection.cxx:82-97 | a connection that never becomes authenticated leaves the world and every other connection as if it had not been there, over every interleaving |
| `Protocol.PasswordLocksWorld` | src/dbl/service/server/service_connection.cxx:82-97 | while nobody offers the right hash, no run changes anything and nobody becomes authenticated |
| `Protocol.PasswordShapeKept` | src/dbl/auth/auth.cxx:48-60 | over every run the stored password is absent or exactly 32 characters |
| `Session.Session.Authenticate` | src/dblclient/session.cxx:49-69 | succeeds if and only if no password is stored, the given one hashes to the stored one, or two named texts collide; only the flag changes |
| `Session.Session.SetServicePassword` | src/dblclient/session.cxx:71-94 | succeeds if and only if the connection is authenticated, and then the stored password is the hash |
| `Session.AuthenticateInterleaved` | src/dblclient/session.cxx:49-69 | the same whatever the other connections do between its two requests, judged by what is stored at the second |
| `Session.ForeignTokenRefused` | src/dbl/auth/auth.cxx:35-36 | an answer computed for another token is accepted only on a collision |
| `Session.SetThenAuthenticate` | src/dblclient/session.cxx:71-94 | after a password is set it opens any connection, and a guess that does is the password or a collision |
| `Effects.InterleavingsAreRuns` | src/dbl/service/server/service_connection.cxx:165-237 | the store after any interleaving of connections is the store after the run of operations their authenticated requests asked for |
| `Effects.InterleavingsKeepStore` | src/dbl/service/server/service_connection.cxx:165-237 | so the protocol keeps the store invariant, and a name leaves the whitelist only by an import into another list |
| `Http.ParseHeaders` | src/dbl/util/http.cxx:10-27 | the loop inserts the parsed lines into the given map, the first value of a name staying |
| `Http.PaddedHeaderParses` | src/dbl/util/http.cxx:15-24 | a header line parses to its name and value however many blanks surround each of them |
| `Http.ParsePrinted` | src/dbl/util/http.cxx:10-27 | parsing printed lines gives exactly the first-occurrence-wins map of the headers (section 3.2 of RFC 7230, names case-sensitive), skipping colon-free lines |
| `Json.DecimalReadsBack` | src/dbl/service/server/http_responder_connection.cxx:32-37 | a printed number reads back as itself and has no leading zero |
| `Responder.Logger.LogDomainHit` | src/dbl/logger/logger.cxx:13-41 | one hit is counted, the row created when missing, unless the cache marks a domain that has no row |
| `Responder.HTTPResponderConnection.ProcessRequest` | src/dbl/service/server/http_responder_connection.cxx:19-48 | the exact reply, and one hit for the parsed Host header |
| `Responder.HTTPResponderConnection.ProcessAll` | src/dbl/service/server/http_responder_connection.cxx:19-30 | the counters after any run of requests, for any sound cache |
| `Responder.HitsAreRequests` | src/dbl/logger/logger.cxx:19-36 | over any run the hits of a domain grow by the number of requests whose Host it is, and only such domains gain a row; requests without a host count for nobody |
| `Responder.HostOfPrinted` | src/dbl/service/server/http_responder_connection.cxx:24-28 | the host counted for a printed request is its first Host header |
| `Responder.ReplyInFull` | src/dbl/service/server/http_responder_connection.cxx:32-47 | the reply read from the left: the version, the configured code as a number, the configured text, the three headers and two blank lines |
| `Responder.ReplyReadsBack` | src/dbl/service/server/http_responder_connection.cxx:32-47 | for any status text, the reply parses to exactly its three headers if and only if the first line of the text has no colon and its further lines, if any, parse to nothing but those headers; for a text without carriage return, if and only if it has no colon |
| `DnsProxy.Unbound.GenerateDomainsConfig` | src/dbl/dnsproxy/unbound.cxx:116-147 | the stream grows by the lines of all records: every added and every active stored name with every enabled family |
| `DnsProxy.DNSMasq.GenerateDomainsConfig` | src/dbl/dnsproxy/dnsmasq.cxx:98-129 | the same records in the other format |
| `DnsProxy.UnboundRoundTrip` | src/dbl/dnsproxy/unbound.cxx:105-114 | reading the Unbound lines gives back every record, for names and addresses free of delimiters |
| `DnsProxy.DnsmasqRoundTrip` | src/dbl/dnsproxy/dnsmasq.cxx:91-96 | reading the dnsmasq lines gives back every (domain, address) pair |
| `DnsProxy.SameRelation` | src/dbl/dnsproxy/unbound.cxx:105-147 | both files denote the same sequence of pairs |
| `DnsProxy.LinesInFull` | src/dbl/dnsproxy/unbound.cxx:105-114 | both line formats, spelled out |
| `DnsProxy.RecordsMembers` | src/dbl/dnsproxy/unbound.cxx:118-146 | which records are written |
| `DnsProxy.RecordsAt` | src/dbl/dnsproxy/unbound.cxx:118-146 | in which order records are written: name by name, IPv4 before IPv6 |
| `DnsProxy.WrittenInOrder` | src/dbl/dnsproxy/unbound.cxx:116-134 | the added names come first, and the stored ones follow in ascending order |
| `DnsProxy.WrittenIffActive` | src/dbl/dnsproxy/unbound.cxx:132-134 | a stored name is written if and only if its list is active, whitelisted or not |
| `DnsProxy.WhitelistedIsWritten` | src/dbl/dnsproxy/unbound.cxx:132-134 | a whitelisted name is written exactly while the whitelist is enabled |
| `Startup.ServesOnlyWhenReady` | src/dbl/service/unix.cxx:322-346 | in every interleaving a server is started only after `start_dns_proxy` returned normally and the semaphore was posted |
| `Startup.FailedStartupEndsService` | src/dbl/service/unix.cxx:355-370 | if start-up throws, the worker never serves and can only exit with status 1 or be killed, the flag is set, and the main loop does not run again |
| `Startup.FailedWorkerLeaves` | src/dbl/service/unix.cxx:322-346 | and on every schedule from there the worker takes at most three steps of its own, has one to take until it is gone, and then has exited with status 1 or was killed |
| `Startup.StatusTellsService` | src/dbl/service/unix.cxx:336-346 | status 1 if and only if the semaphore was never taken; status 0 if and only if it was, and the loop returned or a server could not be created; with status 0 the worker has served exactly when none failed |
| `Startup.FailedServerExitsZero` | src/dbl/service/worker/worker.cxx:52-105 | whenever the service server of an admitted worker cannot be created, it exits with status 0 and has not served |
| `Startup.FailedServerRun` | src/dbl/service/worker/worker.cxx:52-105 | a run in which that happens |
| `Startup.StopReachesWorker` | src/dbl/service/unix.cxx:262-293 | what a failed start and each signal to the master do to the worker, and in which states of the master a signal counts |
| `Startup.PidFailureStartsNothing` | src/dbl/service/unix.cxx:349-358 | if the pid file cannot be written, no proxy and no server is started on any schedule |
| `Startup.RoundEnds` | src/dbl/service/unix.cxx:349-397 | on every schedule a round takes at most eight steps of the master, and there is always one to take until it is over; a round that comes to its end has taken all eight, whatever happened |
| `Startup.AbortDisablesReload` | src/dbl/service/unix.cxx:373-387 | a worker that aborts while it serves disables the reload |
| `Startup.SignaledExitStays` | src/dbl/service/unix.cxx:262-293 | the flag is never taken back |
| `Startup.ExitReasons` | src/dbl/service/unix.cxx:262-387 | the flag is set if and only if a failed start was handled, SIGTERM or SIGINT reached the master, or a crashed worker was reaped |
| `Startup.ReloadsUnlessDisabled` | src/dbl/main.cxx:63-151 | the main loop runs again exactly in the rounds without any of those events |
| `Startup.StartSystemProxy` | src/dbl/service/unix.cxx:117-179 | how often the process table is read, and the exact condition under which starting the system proxy counts as a success |
| `WorkerLoop.Worker.RunServers` | src/dbl/service/worker/worker.cxx:52-105 | which servers exist afterwards, each running in its own thread, and exactly when the process ends because one could not be created |
| `WorkerLoop.Worker.StopServers` | src/dbl/service/worker/worker.cxx:107-127 | every thread is joined after its server has stopped, and both servers are released |
| `WorkerLoop.Worker.Run` | src/dbl/service/worker/worker.cxx:17-46 | on every schedule the configured servers run until the loop has finished, and then all are stopped, joined and released |
| `WorkerLoop.EndsForAReason` | src/dbl/service/worker/worker.cxx:24-42 | on every schedule the loop ends only because stop was set or an update pass reported a change |
| `WorkerLoop.StopIsBounded` | src/dbl/service/worker/worker.cxx:17-41 | once stop is set, notified or not, at most one more wait and one more pass begin and at most one interval is waited |
| `WorkerLoop.StopIsPromptIff` | src/dbl/service/worker/worker.cxx:24-42 | by the end a wait has begun after stop was set if and only if it was set between the test and the wait, and a pass if and only if it was set there or during a wait and the schedule has no wakeup that ended that wait |
| `WorkerLoop.StopTerminates` | src/dbl/service/worker/worker.cxx:24-46 | from a stopped state the worker takes at most the interval plus five steps |
| `WorkerLoop.NeverStuck` | src/dbl/service/worker/worker.cxx:24-46 | until it has finished there is always a step it can take |
| `WorkerLoop.WaitsAsConfigured` | src/dbl/service/worker/worker.cxx:17-22 | on every schedule a wait that times out has lasted the configured interval, or an hour if that is longer |
| `WorkerLoop.WaitTimesOutIff` | src/dbl/service/worker/worker.cxx:17-30 | an undisturbed wait of n seconds ends in a pass if and only if n is at least an hour and at least the configured interval |
| `WorkerLoop.FirstWaitTimesOutIff` | src/dbl/service/worker/worker.cxx:17-30 | and so it is for the first wait of a run |
| `WorkerLoop.HeardStopIsImmediate` | src/dbl/service/service.cxx:41-47 | a stopped worker notified anywhere else, unless its wait is already over, begins no further wait or pass on any schedule, waits not a second more, and has at most three steps left |
| `WorkerLoop.PassFollowsIff` | src/dbl/service/service.cxx:41-47 | by the end of any schedule a pass has begun after the notification if and only if it was lost and no wakeup ended that wait |
| `WorkerLoop.LostNotifyCostsAnInterval` | src/dbl/service/worker/worker.cxx:27-32 | from any stopped state between the test and the wait, notified there, a schedule waits a whole interval and begins a pass |
| `WorkerLoop.NotifyIsLostIff` | src/dbl/service/service.cxx:41-47 | some schedule begins a pass after the notification if and only if the worker was between the test and the wait, or in a wait whose interval was over |
| `WorkerLoop.LossIsReached` | src/dbl/service/worker/worker.cxx:23-28 | a run comes to that first place with stop set |

## Left out

- Sockets, asio, curl, `popen`/`system`, `ioctl`, interface discovery, dropping privileges and the remaining calls of
  the operating system have no logic of their own here.
- The SQL engine and the connection pool: statements are modelled by what they do to the tables; errors inside a
  transaction other than constraint failures, and the state of a leased session after an exception, are not.
- Managers.DomainManager.GetWhitelisted: promises the rows but no order, because the query has no ORDER BY.
- Service.ServiceConnection.ProcessRequest: the payloads of read commands are not part of its responses, because they
  are the results of the queries modelled in `Queries`; the text of JSON exceptions is not modelled either.
- JSON text parsing, real numbers and integers beyond `int`: requests arrive as values of a small JSON datatype.
- MD5 and the drawing of tokens: parameters.
- The decoding of a single name (`Domain::init_from_json`): only its encoding is read back, member by member.
- The calls of `Session` other than the two about passwords, and the closing of the socket by a reload request.
- Startup.StartSystemProxy: models the system service only; starting a private proxy process is one `system` call, and
  stopping either is a sequence of such calls.
- `DomainListManager::count` and the listing of all lists: easy members.
- The generation of the proxy configuration outside the domain lines (`create_config`, `generate_config`), and its
  file system calls.
- The updater: it depends on what the network returns; its result is a parameter of the worker loop.
- Startup.FailedStartupEndsService: covers one round of the main loop; what signals do across reloads, before a worker
  object exists, or to an interrupted `waitpid` is left open, as the code leaves it open.
- That `signal_stop` runs inside a signal handler, where `notify_all` is not safe to call.
- Session.Session.Authenticate: does not state the error text after an exception, which is not modelled.
- WorkerLoop.StopIsBounded: counts time spent waiting, not the time an update pass takes.
- `If-Modified-Since` and date parsing, option parsing, command-line output, logging and the foreground mode.
