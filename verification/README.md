# Circuit-breaker message handlers, modelled in Dafny

The circuit module of the Cosmos SDK lets privileged accounts pause ("trip") and
resume ("reset") the execution of individual message types, identified by their
type URL. Its message server has three handlers over two pieces of state: a
permissions table mapping an account address to `Permissions{Level, LimitTypeUrls}`,
and the set of disabled message type URLs.

- `AuthorizeCircuitBreaker` grants permissions. Only the module authority or a
  SUPER_ADMIN account may grant.
- `TripCircuitBreaker` disables URLs. What the caller may disable depends on its level.
- `ResetCircuitBreaker` re-enables URLs, also depending on the caller's level.

The model is functional. The keeper state is an immutable record (`CircuitKeeper.Keeper`):
the authority, a `map` from address to stored permissions, and a `set` of disabled URLs.
Each handler is a pure function from a state and a message to `Result<Handled, Error>`.
`Handled` is the new state plus `success = true`.

Modules, leaf first:

- `Wrappers` (wrappers.dfy): `Option` and `Result`.
- `CircuitTypes` (types.dfy): addresses as bytes, URLs as strings, and the int32 permission level.
  It also holds `Permissions`, the address codec and the handlers' errors.
- `ByteOrder` (byte_order.dfy): lexicographic byte order. The store iterates addresses in this order.
- `CircuitKeeper` (keeper.dfy): the store operations the handlers use.
  These are get/set permissions, `IsAllowed`, enable/disable, and ordered iteration.
- `CircuitSpec`, `CircuitSpecLemmas` (circuit_spec.dfy): a declarative vocabulary for the rules.
  It says which URL lists a trip or reset accepts, and what the disabled set becomes.
- `MsgServer` (msg_server.dfy): the three handlers, their loops, `stringInSlice`, and the `msg_url` attribute text.
- `MsgServerProps` (msg_server_props.dfy): one lemma per rule of the handlers.
- `CircuitLedger` (ledger.dfy): messages executed in sequence. A failed message leaves the state as it was.
- `Intended` (intended.dfy): the three discrepancies listed under Findings.
  For each one it has the as-written behaviour and a corrected handler with its round trip.

Modelling decisions:

- **Failed messages.** The loops in the source write to the store before they check
  later URLs (msg_server.go:88-93, 166-171). The model treats an error as leaving the
  state unchanged: a failing handler returns only the error. This matches the SDK
  runtime, which drops the writes of a message whose handler returns an error.
  `CircuitLedger.Apply` makes the rule explicit.
- **The address codec** is an uninterpreted partial function `string -> Option<Addr>`.
  It is a parameter of every handler.
- **The keeper's store operations** live in keeper.go, which is not part of this model.
  They are modelled from how the handlers use them and from keeper_test.go:
  - `IsAllowed(u)` holds exactly when `u` is not disabled.
  - `EnableMsg` removes `u` from the disabled set.
  - The disable-prefix `store.Set` adds `u` to it.
  - `GetPermissions` returns the zero permissions (level NONE_UNSPECIFIED) for an address with no entry.
    Protobuf decoding of empty bytes gives that value.
  - `GetPermissions` fails for an entry whose bytes do not decode (`StoredPermissions.Corrupt`).
    This is the lookup error the handlers propagate.
- **Levels** are int32 codes (SOME_MSGS = 1, ALL_MSGS = 2, SUPER_ADMIN = 3).
  A protobuf enum can carry codes outside the named ones, so "any other level" includes unknown codes.
- The test file passes string addresses to `SetPermissions`, while the message server passes
  decoded bytes. The model uses bytes throughout.

## Model

| member | source | states |
|---|---|---|
| `CircuitTypes.DecodeAddress` | x/circuit/keeper/msg_server.go:27-30 | decoding succeeds exactly when the codec accepts the string, and a rejected address is reported as that address's error |
| `CircuitKeeper.GetAfterSet` | x/circuit/keeper/keeper_test.go:60-67 | reading an address's permissions right after setting them returns them, without error |
| `CircuitKeeper.SetLeavesOthers` | x/circuit/keeper/keeper_test.go:87-101 | setting one address's permissions does not change what any other address reads |
| `CircuitKeeper.GetAuthorityOfNewKeeper` | x/circuit/keeper/keeper_test.go:47-51 | a keeper reports the authority it was constructed with |
| `CircuitKeeper.NewKeeper` | x/circuit/keeper/keeper_test.go:28-31 | a new keeper starts with an empty permissions table and no disabled URL |
| `CircuitKeeper.GetAuthority` | x/circuit/keeper/msg_server.go:33 | the module authority the handlers compare the caller with; its contract is stated by `CircuitKeeper.GetAuthorityOfNewKeeper` and `CircuitKeeper.WritesKeepAuthority` |
| `CircuitKeeper.WritesKeepAuthority` | x/circuit/keeper/msg_server.go:33 | no permissions write and no disable or enable write changes the authority the keeper reports |
| `CircuitKeeper.IsAllowed` | x/circuit/keeper/msg_server.go:89 | a URL is allowed exactly when it carries no disable mark; its behaviour across writes is stated by `CircuitKeeper.AllowedAcrossWrites` |
| `CircuitKeeper.AllowedAcrossWrites` | x/circuit/keeper/msg_server.go:88-93 | a fresh keeper allows every URL; a disable write blocks exactly its URL and an enable write allows exactly its URL again, all other URLs unchanged |
| `CircuitKeeper.GetPermissions` | x/circuit/keeper/msg_server.go:35-38 | the lookup fails exactly for an entry that does not decode; a missing address reads as the zero permissions; otherwise it yields the stored value |
| `CircuitKeeper.SetPermissions` | x/circuit/keeper/msg_server.go:51-53 | storing permissions adds the address to the table and leaves the authority and the disabled set alone |
| `CircuitKeeper.DisableMsg` | x/circuit/keeper/msg_server.go:92 | after the disable write the URL is not allowed, and every other URL is allowed exactly as before |
| `CircuitKeeper.EnableMsg` | x/circuit/keeper/msg_server.go:171 | after enabling, the URL is allowed, and every other URL is allowed exactly as before |
| `CircuitKeeper.EnableUndoesDisable` | x/circuit/keeper/msg_server.go:171 | enabling a URL that was allowed before it was disabled restores the state |
| `CircuitKeeper.SortedAddresses` | x/circuit/keeper/keeper_test.go:82-101 | the stored addresses come out in strictly ascending byte order, each exactly once, and none is missing |
| `CircuitKeeper.IteratePermissions` | x/circuit/keeper/keeper_test.go:71-102 | iteration visits entries in ascending address order, each with its stored permissions. It stops right after the first entry the callback asks to stop at. Every stored address that sorts before the last visited one was visited, so nothing is skipped. With a callback that never stops, it visits every stored address exactly once. A failure names an undecodable entry, and every address below it decoded and did not stop the iteration, so the failure is the first entry the iteration cannot read |
| `CircuitKeeper.AllBelowVisited` | x/circuit/keeper/keeper_test.go:71-102 | by the time iteration reaches a key, every stored address below it has decoded and has been passed by the callback without stopping |
| `CircuitKeeper.PrefixHoldsAllBelow` | x/circuit/keeper/keeper_test.go:71-102 | entries visited along the ascending key listing include every stored address that sorts before the last visited one |
| `ByteOrder.AscendingIndexOrder` | x/circuit/keeper/keeper_test.go:71-102 | in an ascending listing, an address that sorts before another sits at an earlier position |
| `CircuitKeeper.DistinctSize` | x/circuit/keeper/keeper_test.go:95-101 | a duplicate-free listing of the stored addresses has as many elements as the table, so iteration sees every entry once |
| `ByteOrder.LexLessTransitive` | x/circuit/keeper/keeper_test.go:82-101 | the iteration order is transitive |
| `ByteOrder.LexLessTotal` | x/circuit/keeper/keeper_test.go:82-101 | any two distinct addresses are ordered one way or the other |
| `ByteOrder.LexLessIrreflexive` | x/circuit/keeper/keeper_test.go:82-101 | no address sorts before itself, so an ascending listing has no repeats |
| `MsgServer.StringInSlice` | x/circuit/keeper/msg_server.go:202-209 | the scan returns true exactly when the string is an element of the list |
| `MsgServer.CheckSuperAdmin` | x/circuit/keeper/msg_server.go:32-43 | the granter passes exactly when it is the authority or its stored level is SUPER_ADMIN. Otherwise the lookup error, or "only super admins", is returned |
| `MsgServer.AuthorizeCircuitBreaker` | x/circuit/keeper/msg_server.go:24-67 | authorization succeeds exactly when both addresses decode and the granter may authorize. It then stores exactly the requested permissions for the grantee and answers success. Each rejection carries the error of the first failing check, in the source's order |
| `MsgServerProps.AuthorizeSetsOnlyGrantee` | x/circuit/keeper/msg_server.go:45-66 | after a successful authorization the grantee reads the granted permissions. Every other address reads what it did before. The disabled set and the authority are unchanged |
| `MsgServerProps.AuthorityMayAlwaysAuthorize` | x/circuit/keeper/msg_server.go:32-33 | the authority skips the permission check, even when its own entry is missing or undecodable |
| `MsgServerProps.AuthorizeNeedsSuperAdmin` | x/circuit/keeper/msg_server.go:40-42 | a non-authority granter below SUPER_ADMIN is refused with "only super admins can authorize users" |
| `MsgServer.DisableEach` | x/circuit/keeper/msg_server.go:88-93 | the loop succeeds exactly when no listed URL is disabled and none is listed twice, and then adds all listed URLs to the disabled set. On failure it names the first URL that is disabled already, or disabled by an earlier entry |
| `MsgServer.DisableIfEveryLimitMatches` | x/circuit/keeper/msg_server.go:109-115 | the inner SOME_MSGS loop succeeds exactly when every limit entry equals the URL. It disables the URL if there is at least one entry. Otherwise it fails with "no permission for" that URL |
| `MsgServer.DisableEachLimited` | x/circuit/keeper/msg_server.go:104-116 | a SOME_MSGS trip succeeds exactly when no listed URL is disabled and, for a non-empty limit list, the URLs are distinct and each equals every limit entry. It disables the listed URLs, or nothing when the limit list is empty. A failure reports the first URL that fails: "already disabled" if it is disabled (or repeated), otherwise "no permission to trip" for it |
| `MsgServer.LimitedShift` | x/circuit/keeper/msg_server.go:104-116 | once the first URL has passed the SOME_MSGS checks, each later URL passes or fails, with the same error, as it would at its position in the whole list |
| `MsgServer.TripAs` | x/circuit/keeper/msg_server.go:85-119 | the level switch accepts exactly the trips the declarative rule admits and adds exactly the URLs that rule names. A rejected trip reports the first blocked URL (unrestricted callers) or the first failing URL (SOME_MSGS). A caller that is neither gets "no permission to trip" |
| `MsgServer.TripCircuitBreaker` | x/circuit/keeper/msg_server.go:69-140 | an undecodable address or a failing permissions lookup rejects the trip. Otherwise the trip succeeds exactly when the caller's level admits the list, and the new state differs only by the URLs disabled. A rejection carries the error of the first URL the level's loop stops at |
| `MsgServerProps.TripUnrestricted` | x/circuit/keeper/msg_server.go:85-102 | for SUPER_ADMIN, the authority or ALL_MSGS, a trip succeeds exactly when every listed URL is allowed and listed once. Afterwards the disabled URLs are the old ones plus the listed ones |
| `MsgServerProps.TripLimitedWithoutLimitsDisablesNothing` | x/circuit/keeper/msg_server.go:103-116 | a SOME_MSGS account with no limit entries "succeeds" whenever the listed URLs are allowed, and disables nothing |
| `MsgServerProps.TripLimitedAtMostOneUrl` | x/circuit/keeper/msg_server.go:103-116 | with a non-empty limit list, a successful SOME_MSGS trip lists at most one URL, and every limit entry equals it |
| `MsgServerProps.TripOtherLevelRejected` | x/circuit/keeper/msg_server.go:117-118 | a non-authority caller at any other level is refused, even for an empty list |
| `MsgServerProps.TripLookupErrorRejectsAuthority` | x/circuit/keeper/msg_server.go:79-86 | the permissions lookup runs before the authority test, so an undecodable entry rejects even the authority |
| `MsgServerProps.TripOnlyDisablesListed` | x/circuit/keeper/msg_server.go:85-119 | a successful trip only adds listed URLs to the disabled set and leaves permissions and authority alone |
| `MsgServer.EnableEachLimited` | x/circuit/keeper/msg_server.go:165-172 | the SOME_MSGS reset loop succeeds exactly when every listed URL is in the limit list, and then enables all of them. On failure it names the first URL outside the list |
| `MsgServer.EnableEachAllowed` | x/circuit/keeper/msg_server.go:173-181 | the ALL_MSGS reset loop succeeds exactly when no listed URL is disabled, and then leaves the state as it was. On failure it names the first disabled URL |
| `MsgServer.ResetCircuitBreaker` | x/circuit/keeper/msg_server.go:144-200 | address and lookup errors reject the reset. Levels other than ALL_MSGS and SOME_MSGS get "no permission to reset". Otherwise the reset succeeds exactly when the level's rule admits the list, and removes exactly the URLs that rule enables. A rejection names the first URL outside the limits (SOME_MSGS) or the first disabled URL (ALL_MSGS) |
| `MsgServerProps.SuperAdminCannotReset` | x/circuit/keeper/msg_server.go:159-162 | a SUPER_ADMIN caller is refused |
| `MsgServerProps.AuthorityCannotResetWithoutLevel` | x/circuit/keeper/msg_server.go:153-162 | the authority with no stored entry is refused: being the authority gives no right to reset |
| `MsgServerProps.ResetLimited` | x/circuit/keeper/msg_server.go:165-172 | a SOME_MSGS reset succeeds exactly when `stringInSlice` accepts every listed URL. Afterwards the allowed URLs are the old ones plus the listed ones |
| `MsgServerProps.ResetAllMsgsChangesNothing` | x/circuit/keeper/msg_server.go:173-181 | an ALL_MSGS reset succeeds exactly when every listed URL is already allowed, and then the state is unchanged |
| `MsgServerProps.ResetOnlyEnablesListed` | x/circuit/keeper/msg_server.go:159-181 | a successful reset only removes listed URLs from the disabled set and leaves permissions and authority alone |
| `MsgServerProps.TripThenLimitedResetRestores` | x/circuit/keeper/msg_server.go:103-172 | a SOME_MSGS account limited to one URL can trip it and reset it, which restores the original state |
| `MsgServerProps.AllMsgsResetCannotUndoTrip` | x/circuit/keeper/msg_server.go:173-181 | after a trip that disabled its URLs, an ALL_MSGS reset listing any of them fails |
| `MsgServer.MsgUrlsAttribute` | x/circuit/keeper/msg_server.go:121-127 | the attribute is empty for zero or one URL. For two or more it is every URL preceded by ", ", in order |
| `MsgServer.CommaPrefixedSnoc` | x/circuit/keeper/msg_server.go:124-126 | the loop's left-to-right appending agrees with the front-to-back definition of the text |
| `MsgServer.ParseCommaPrefixedInverts` | x/circuit/keeper/msg_server.go:121-127 | when no URL contains a comma, the text built for two or more URLs can be read back into exactly the listed URLs |
| `CircuitLedger.Apply` | x/circuit/keeper/msg_server.go:88-93 | a failed message leaves the state exactly as it was, and a successful one yields exactly its handler's state. Only Authorize changes permissions; only Trip adds and only Reset removes disabled URLs, and only listed ones |
| `CircuitLedger.RunKeepsAuthority` | x/circuit/keeper/msg_server.go:32-33 | no sequence of messages changes the authority |
| `CircuitLedger.RunWithoutAuthorizeKeepsPermissions` | x/circuit/keeper/msg_server.go:50-53 | without an Authorize message the permissions table never changes |
| `CircuitLedger.RunDisablesOnlyThroughTrip` | x/circuit/keeper/msg_server.go:85-119 | a URL that becomes disabled over a sequence was listed by some Trip message |
| `CircuitLedger.RunEnablesOnlyThroughReset` | x/circuit/keeper/msg_server.go:164-181 | a URL that becomes enabled over a sequence was listed by some Reset message |
| `Intended.DisableEachPermitted` | x/circuit/keeper/msg_server.go:109-115 | corrected SOME_MSGS trip loop: succeeds exactly when every listed URL is allowed, listed once and in the limit list, and disables them all |
| `Intended.TripAsIntended` | x/circuit/keeper/msg_server.go:85-119 | the level switch with the corrected SOME_MSGS branch: success exactly under the corrected rule, adding every listed URL |
| `Intended.TripCircuitBreakerIntended` | x/circuit/keeper/msg_server.go:69-119 | address and lookup errors reject the corrected trip. Otherwise it succeeds exactly when every listed URL is allowed and listed once, and, under SOME_MSGS, is in the limit list. Other levels get "no permission to trip". A success disables exactly the listed URLs |
| `Intended.EnableEachDisabled` | x/circuit/keeper/msg_server.go:173-181 | corrected unrestricted reset loop: succeeds exactly when every listed URL is disabled and listed once, and enables them all |
| `Intended.ResetCircuitBreakerIntended` | x/circuit/keeper/msg_server.go:159-181 | address and lookup errors reject the corrected reset. For SUPER_ADMIN, the authority or ALL_MSGS it succeeds exactly when every listed URL is disabled and listed once; under SOME_MSGS exactly when every URL is in the limit list; other levels get "no permission to reset". A success enables exactly the listed URLs and changes nothing else |
| `Intended.TripThenResetRestores` | x/circuit/keeper/msg_server.go:142-143 | with the corrections, an unrestricted caller's trip followed by its reset of the same list restores the original state |
| `Intended.LimitedTripThenResetRestores` | x/circuit/keeper/msg_server.go:142-143 | with the corrections, a SOME_MSGS caller's trip followed by its reset of the same list restores the original state |
| `Intended.LimitedTripIntended` | x/circuit/keeper/msg_server.go:103-116 | with the correction, a SOME_MSGS trip succeeds exactly when every listed URL is allowed, distinct and in the limit list |
| `Intended.AllMsgsResetAsWritten` | x/circuit/keeper/msg_server.go:173-181 | as written, an ALL_MSGS reset of a disabled URL fails with "is not disabled". The corrected reset enables it |
| `Intended.SuperAdminResetAsWritten` | x/circuit/keeper/msg_server.go:159-162 | as written, a SUPER_ADMIN reset of a disabled URL is refused. The corrected reset enables it |
| `Intended.LimitedTripAsWritten` | x/circuit/keeper/msg_server.go:109-115 | as written, an account limited to two URLs cannot trip either one. The corrected trip disables it |

## Left out

- Event emission through the event manager, and its attribute strings (msg_server.go:55-62, 129-135, 191-197). These are logging side effects, not state.
  The `msg_url` text a trip or reset builds is modelled by `MsgServer.MsgUrlsAttribute`, but the handlers do not return it.
- `sdk.UnwrapSDKContext`, KV store handles and the store keys (`CreateDisableMsgPrefix`, the address prefix). These are storage plumbing.
  They are abstracted as the disabled set and the permissions map.
- The address codec's internals. Any partial function from string to bytes is allowed.
- keeper.go is not part of this model. Its operations are modelled from their use and from keeper_test.go, as described above.
- The `SetPermissions` error branch (msg_server.go:51-53). That error would come from encoding; an in-memory value is always stored.
- Iteration order follows the plain address bytes. If the store key length-prefixes addresses, the real order is by length first.
  The two orders agree on the test's equal-length addresses.
- `CircuitKeeper.IteratePermissions`: the callback is a pure stop predicate. What it records is the returned list of visited entries.
  A corrupt entry met during iteration is reported as an error; in the keeper it would be a decoding panic.

## Findings

| source | as written | input that shows it | evidently intended | confidence | as-written member | corrected member |
|---|---|---|---|---|---|---|
| x/circuit/keeper/msg_server.go:175-177 | an ALL_MSGS reset fails with "msgTypeURL %s is not disabled" when the URL is NOT allowed, i.e. when it IS disabled | ALL_MSGS account, disabled set {u}, reset [u]: error "msgTypeURL u is not disabled", nothing re-enabled | fail when the URL is allowed; enable it when it is disabled | not executed; high | `Intended.AllMsgsResetAsWritten` | `Intended.EnableEachDisabled` |
| x/circuit/keeper/msg_server.go:159-162 | only a stored level of ALL_MSGS or SOME_MSGS may reset, so a SUPER_ADMIN, who may trip anything, can never reset; being the authority gives no right to reset either, since only the stored level decides | SUPER_ADMIN account, disabled set {u}, reset [u]: "account does not have permission to reset the circuit breaker" | callers that trip without restriction may also reset without restriction | not executed; medium | `Intended.SuperAdminResetAsWritten` | `Intended.ResetCircuitBreakerIntended` |
| x/circuit/keeper/msg_server.go:109-115 | a SOME_MSGS trip compares the URL with every limit entry and fails on the first one that differs | SOME_MSGS account with limits [u, v], u ≠ v, trip [u]: "account does not have permission to trip circuit breaker for message u" | test membership in the limit list, as the reset branch does with `stringInSlice` | not executed; high | `Intended.LimitedTripAsWritten` | `Intended.DisableEachPermitted` |
