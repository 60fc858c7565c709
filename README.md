# pfsense-mobile: blocklist, client merge, request checks and navigation guard

This project models the decision-making core of pfsense-mobile. pfsense-mobile is a mobile web front end and
Express back end for a pfSense firewall. The firewall keeps an alias, by default named `BLOCKED`, that holds a list of
blocked MAC addresses or alias names (`address`) and a parallel list of notes (`detail`).

- **Blocklist** (`blocklist.dfy`) holds the list computations of `backend/src/services/pfsense.js` as pure functions:
  - the blocked-list read, which drops blank entries with `addr && addr.trim()`;
  - the block plan, which appends the value and one note when the value is not listed;
  - the unblock plan, which removes every equal address but only the note at the first index.
- **PfSense** (`pfsense.dfy`) holds the service itself, as class `Service`:
  - its state is the appliance's alias listing and the log of changing requests the appliance accepted (PATCH of
    the alias, POST of the apply);
  - `blockDevice`, `unblockDevice`, `blockAlias` and `unblockAlias` are methods. Each is proved equal to a pure step
    function `BlockStep` or `UnblockStep` over that state, and the properties are lemmas about the step functions;
  - which remote call fails, if any, is a parameter (`Fault`). A failed apply leaves the PATCH in place, as in the
    source.
- **ConnectedClients** (`connected_clients.dfy`) holds `getConnectedClients`:
  - the two `forEach` loops over the DHCP leases and the ARP table, with their `clients` list and `seenMACs` set, are
    a method proved equal to a pure merge function;
  - lemmas give distinct MACs, DHCP first, the `blocked` flag, and the field defaults.
- **MacAddress** (`mac_address.dfy`) models the regular expression `^([0-9A-Fa-f]{2}[:-]){5}([0-9A-Fa-f]{2})$`:
  - it is a recursive group matcher;
  - it is proved equal to a positional description (17 characters, separators at every third position).
- **ClientRoutes** (`client_routes.dfy`) models `routes/clients.js`:
  - the MAC check in front of block and unblock;
  - the `/blocked` view: the blocked connected clients, then one offline placeholder per blocked MAC that is not
    connected, built by a loop proved against a function.
- **DhcpRoutes** (`dhcp_routes.dfy`) models the order of the request checks in `routes/dhcp.js`. `validateStaticIP`
  is a function parameter.
- **Auth** (`auth.dfy`) models the Bearer-token middleware and the login handler of `middleware/auth.js`.
- **Router** (`router.dfy`) models the route table and the `beforeEach` guard of `frontend/src/router/index.js`.
- **Js** (`js.dfy`) models the JavaScript conventions the rest relies on:
  - absent fields as `Option`;
  - truthiness of strings and `||` defaults;
  - thrown errors as `Result`;
  - `String.prototype.trim` over the ECMAScript whitespace and line-terminator characters.

Quirks of the source kept as they are:

- An unblock of a value listed twice removes both addresses but only one note (`UnblockDropsOneDetail`).
- Blank addresses are filtered on read but notes are not, so the positional pairing of addresses and notes drifts
  (`BlockDetailDrift`, `BlockThenUnblock`).
- A blank value is written by every block and never read back (`BlankValueNeverSticks`).
- A blocked MAC listed twice gets two placeholders in the `/blocked` view (`ViewRepeatsDuplicates`,
  `DuplicateBlockedListedTwice`). The exactly-once lemma therefore requires a list with no duplicates.
- With `ADMIN_PASSWORD` set to the empty string, every login is refused, yet a header value of exactly `Bearer `
  (nothing after the space) passes the middleware function (`EmptyPasswordAsymmetry`). HTTP parsers commonly strip
  trailing whitespace from header values, so a client may not be able to deliver that value.
- The DELETE route never checks the MAC format (`DeleteSkipsFormat`).

## Model

| member | source | states |
|---|---|---|
| Js.Trim | backend/src/services/pfsense.js:86 | the trimmed string is no longer than the input and does not end with whitespace |
| Js.TrimIsSlice | backend/src/services/pfsense.js:86 | `trim` removes exactly a whitespace prefix and a whitespace suffix: the result is a slice with only whitespace around it |
| Js.TrimEdges | backend/src/services/pfsense.js:86 | a non-empty trimmed string neither starts nor ends with whitespace |
| Js.TrimEmptyIff | backend/src/services/pfsense.js:86 | a string trims to "" exactly when all its characters are whitespace |
| Blocklist.AliasName | backend/src/services/pfsense.js:9 | the configured name when it is set and non-empty, else BLOCKED; never empty |
| Blocklist.KeptIsTruthyTrimmed | backend/src/services/pfsense.js:86 | `addr && addr.trim()` holds exactly for entries with a non-whitespace character |
| Blocklist.FilterKept | backend/src/services/pfsense.js:85-87 | the read list is no longer than the raw list and holds exactly the raw entries that are not blank |
| Blocklist.FilterKeptCounts | backend/src/services/pfsense.js:86 | every occurrence of a non-blank entry survives the filter and no occurrence of a blank one does |
| Blocklist.FilterKeptAppend | backend/src/services/pfsense.js:86 | the filter works entry by entry: filtering a concatenation concatenates the filtered parts, so order is kept |
| Blocklist.FilterKeepsKept | backend/src/services/pfsense.js:86 | a list with no blank entry passes the filter unchanged |
| Blocklist.NothingDropped | backend/src/services/pfsense.js:86 | the filter keeps the length exactly when no entry is blank |
| Blocklist.Addresses | backend/src/services/pfsense.js:108-110 | the current address list is the raw list with blank entries filtered out, order and counts as FilterKept gives them; [] when the field is not an array |
| Blocklist.Details | backend/src/services/pfsense.js:121 | the current detail list is the raw list unfiltered, [] when the field is not an array |
| Blocklist.FindByName | backend/src/services/pfsense.js:78 | `find` stops at the first alias with the name; none when no alias has it |
| Blocklist.Lookup | backend/src/services/pfsense.js:78-82 | the blocked alias is missing exactly when the listing has no data or no alias of that name; when found it is the alias at the first index with that name |
| Blocklist.BlockedDevices | backend/src/services/pfsense.js:75-94 | the read holds only non-blank entries; it is [] when the alias is missing or its address is not an array; otherwise it is the raw address list with the blank entries filtered out, in order |
| Blocklist.BlockedDetails | backend/src/services/pfsense.js:121 | the detail list of the found alias, unfiltered; [] when the alias is missing |
| Blocklist.IndexOf | backend/src/services/pfsense.js:158 | `indexOf` is -1 exactly when the value is absent, else the first index holding it |
| Blocklist.RemoveAll | backend/src/services/pfsense.js:164 | the filtered list holds exactly the entries other than the value (order in RemoveAllAppend) |
| Blocklist.RemoveAllCounts | backend/src/services/pfsense.js:164 | other entries keep their counts and the length drops by the number of occurrences of the value |
| Blocklist.RemoveAllAppend | backend/src/services/pfsense.js:164 | the filter distributes over concatenation, so the surviving entries keep their order |
| Blocklist.RemoveAllSingle | backend/src/services/pfsense.js:164 | a single entry is kept exactly when it differs from the value |
| Blocklist.RemoveAllAbsent | backend/src/services/pfsense.js:164 | a list without the value passes unchanged |
| Blocklist.RemoveAllOnce | backend/src/services/pfsense.js:164 | a value held once is cut out at its position and nothing else moves |
| Blocklist.RemoveAppended | backend/src/services/pfsense.js:118-164 | removing a value appended to a list without it gives the list back |
| Blocklist.RemoveAt | backend/src/services/pfsense.js:168 | the index filter drops exactly position k when it exists and changes nothing otherwise |
| Blocklist.BlockPlan | backend/src/services/pfsense.js:108-122 | no write exactly when the value is already read; otherwise the read list plus the value at the end and the unfiltered details plus the note, earlier entries in place |
| Blocklist.UnblockPlan | backend/src/services/pfsense.js:153-168 | no write exactly when the value is not read; a write never contains the value |
| Blocklist.UnblockPlanWrites | backend/src/services/pfsense.js:158-168 | all copies of the value go and other counts stay; a value held once is cut out at its first index with everything else in place; the detail at that index goes when the list reaches it, otherwise the details are unchanged |
| Blocklist.UnblockPlanPositions | backend/src/services/pfsense.js:158-168 | the first index of the value decides: the detail there is dropped or, past the end, nothing is; a value held once leaves the addresses around it in place |
| Blocklist.ReadBackAppended | backend/src/services/pfsense.js:108-118 | the written list with a non-blank value appended reads back unchanged |
| Blocklist.BlockTwice | backend/src/services/pfsense.js:108-118 | blocking a non-blank value a second time writes nothing |
| Blocklist.BlankValueNeverSticks | backend/src/services/pfsense.js:108-168 | a blank value is written on every block, never read back, and never found by unblock |
| Blocklist.BlockThenUnblock | backend/src/services/pfsense.js:118-168 | block then unblock of an unlisted non-blank value restores the read list; details regain their length exactly when they were at least as long, and their contents when lengths were equal |
| Blocklist.BlockDetailDrift | backend/src/services/pfsense.js:108-122 | from equal-length raw lists, the written lists have equal length exactly when no blank address was dropped |
| Blocklist.UnblockDropsOneDetail | backend/src/services/pfsense.js:164-168 | a value listed twice loses at least two addresses but at most one detail |
| Blocklist.UnblockKeepsPairing | backend/src/services/pfsense.js:164-168 | with paired lists and the value listed once, the pair at its position goes and every other address stays next to its own detail |
| Blocklist.PatchById | backend/src/services/pfsense.js:125-129 | the PATCH keeps the number of aliases and every name and id |
| Blocklist.LookupAfterPatch | backend/src/services/pfsense.js:125-129 | after the PATCH by id the next lookup by name finds the alias with the new lists |
| ConnectedClients.AddUnseen | backend/src/services/pfsense.js:235-247 | a pass keeps what was there in front and pushes only candidates whose MAC was not seen |
| ConnectedClients.AddUnseenMacs | backend/src/services/pfsense.js:236-237 | the MACs seen after a pass are the old ones plus those of the records that have one |
| ConnectedClients.AddUnseenDistinct | backend/src/services/pfsense.js:236-237 | a pass keeps distinct MACs distinct |
| ConnectedClients.AddUnseenStep | backend/src/services/pfsense.js:236-246 | one iteration pushes the record exactly when it has a MAC not yet seen |
| ConnectedClients.LeaseClient | backend/src/services/pfsense.js:238-245 | a lease record carries the lease MAC, ip and end; hostname or 'Unknown'; state or 'active'; blocked exactly when the MAC is in the blocked list |
| ConnectedClients.ArpClient | backend/src/services/pfsense.js:255-262 | an ARP record carries the entry MAC, ip and interface; hostname or 'Unknown'; status always 'active'; blocked exactly when the MAC is in the blocked list |
| ConnectedClients.AddUnseenFirst | backend/src/services/pfsense.js:236-237 | every record a pass pushes is the first candidate carrying its MAC; later candidates with that MAC are turned away |
| ConnectedClients.LeasePass | backend/src/services/pfsense.js:234-248 | the DHCP pass gives distinct MACs, exactly the MACs of the leases that have one |
| ConnectedClients.Merged | backend/src/services/pfsense.js:230-267 | the DHCP-pass records come first unchanged, every later record has a MAC the DHCP pass did not list, and all MACs are distinct |
| ConnectedClients.MergeClients | backend/src/services/pfsense.js:230-267 | the two loops over `clients` and `seenMACs` compute the merge |
| ConnectedClients.MergedDhcpFirst | backend/src/services/pfsense.js:230-265 | MACs are pairwise distinct; DHCP clients come first; ARP clients follow, have status 'active' and a MAC no lease had |
| ConnectedClients.MergedMacs | backend/src/services/pfsense.js:234-265 | the listed MACs are exactly those of the leases and ARP entries that have one |
| ConnectedClients.MergedRecords | backend/src/services/pfsense.js:238-262 | every record has a MAC, hostname and status, and is flagged blocked exactly when its MAC is in the blocked list |
| ConnectedClients.LeaseWins | backend/src/services/pfsense.js:233-265 | a MAC found in a lease is listed as a DHCP client even when the ARP table has it too |
| ConnectedClients.MergedFieldsFromSource | backend/src/services/pfsense.js:233-265 | a DHCP-derived record is built from the FIRST lease reporting its MAC; an ARP-derived record from the FIRST ARP entry reporting its MAC, and no lease reports that MAC |
| PfSense.WriteStep | backend/src/services/pfsense.js:124-134 | success exactly when neither the PATCH nor the apply fails; a failed PATCH makes no request and changes nothing; otherwise the PATCH comes first and stays in place even when the apply fails; an apply was made exactly on success |
| PfSense.Commit | backend/src/services/pfsense.js:112-134 | a plan that changes nothing succeeds with no request; every failure carries the mutator's message; no request means no change |
| PfSense.BlockStep | backend/src/services/pfsense.js:97-139 | every failure is "Failed to block …"; no request means no change; an apply was made only when the block succeeded |
| PfSense.UnblockStep | backend/src/services/pfsense.js:142-185 | every failure is "Failed to unblock …"; no request means no change; an apply was made only when the unblock succeeded |
| PfSense.CommitCalls | backend/src/services/pfsense.js:124-134 | no request means nothing changed; success with a change means exactly one PATCH then one apply; a failed apply leaves exactly the PATCH; an apply only comes with success |
| PfSense.MissingAliasFails | backend/src/services/pfsense.js:100-105 | a missing blocked alias or a failed listing fails every mutator with no request and no change |
| PfSense.BlockListedIsNoop | backend/src/services/pfsense.js:112-115 | blocking a listed value answers "already blocked", makes no request and changes nothing |
| PfSense.UnblockUnlistedIsNoop | backend/src/services/pfsense.js:157-161 | unblocking an unlisted value answers "not in blocked list", makes no request and changes nothing |
| PfSense.BlockWrites | backend/src/services/pfsense.js:117-134 | a block of an unlisted value sends one PATCH with the appended lists, then the apply, and the alias then holds those lists |
| PfSense.BlockIdempotent | backend/src/services/pfsense.js:112-134 | after a successful block of a non-blank value, blocking it again makes no request |
| PfSense.WriteCommitted | backend/src/services/pfsense.js:124-134 | a write with no failure succeeds and the alias is then found with the written lists |
| PfSense.BlockThenUnblockSteps | backend/src/services/pfsense.js:97-185 | block then unblock of an unlisted non-blank value both succeed; the blocked list reads as before; the detail length is restored when the details were at least as long |
| PfSense.Service.constructor | backend/src/services/pfsense.js:9 | the alias name is BLOCKED_ALIAS_NAME when set and non-empty, else 'BLOCKED' |
| PfSense.Service.GetAlias | backend/src/services/pfsense.js:58-72 | found exactly when the listing succeeds and has an alias of that name, and then it is the first such alias; any failure gives "Failed to fetch alias <name>" |
| PfSense.Service.GetBlockedDevices | backend/src/services/pfsense.js:75-94 | a failed listing gives its error; otherwise the result is the read of the blocked alias (`BlockedDevices`), only non-blank entries, [] when the alias is missing |
| PfSense.Service.ApplyChanges | backend/src/services/pfsense.js:188-196 | a successful apply is logged, a failed one is not |
| PfSense.Service.PatchAlias | backend/src/services/pfsense.js:125-129 | a successful PATCH replaces the lists of the alias with that id and is logged; a failed one changes nothing |
| PfSense.Service.WriteBack | backend/src/services/pfsense.js:124-137 | the PATCH then the apply, as the write step says |
| PfSense.Service.Block | backend/src/services/pfsense.js:97-139 | result, new listing and requests are those of the block step |
| PfSense.Service.Unblock | backend/src/services/pfsense.js:142-185 | result, new listing and requests are those of the unblock step |
| PfSense.Service.BlockDevice | backend/src/services/pfsense.js:97-139 | the block step with the device messages |
| PfSense.Service.UnblockDevice | backend/src/services/pfsense.js:142-185 | the unblock step with the device messages |
| PfSense.Service.BlockAlias | backend/src/services/pfsense.js:297-343 | the block step with the alias messages |
| PfSense.Service.UnblockAlias | backend/src/services/pfsense.js:346-393 | the unblock step with the alias messages |
| PfSense.Service.GetConnectedClients | backend/src/services/pfsense.js:221-272 | fails exactly when one of the three reads fails, with one of their messages; otherwise the merge with the blocked list |
| MacAddress.GroupsArePositional | backend/src/routes/clients.js:49 | n groups of two hex digits and a separator, then two digits, are exactly the 3n+2 strings with separators at every third position |
| MacAddress.MacPatternIsPositional | backend/src/routes/clients.js:49 | the regular expression accepts exactly the 17-character strings with separators at 2, 5, 8, 11, 14 and hex digits elsewhere |
| MacAddress.SeparatorsIndependent | backend/src/routes/clients.js:49 | each separator may be ':' or '-' on its own, so mixed separators pass |
| MacAddress.HexDigitsIndependent | backend/src/routes/clients.js:49 | any hex digit of either case may stand in any digit position |
| MacAddress.AcceptedIffPattern | backend/src/routes/clients.js:65 | the parameter passes the route's check exactly when it is present and well formed |
| ClientRoutes.ServiceReply | backend/src/routes/clients.js:53-57 | a service success is sent with 200, a failure with 500 and its message |
| ClientRoutes.BlockRoute | backend/src/routes/clients.js:45-58 | a missing or malformed MAC gives 400 "Invalid MAC address format" and no request; otherwise the device block |
| ClientRoutes.UnblockRoute | backend/src/routes/clients.js:61-74 | a missing or malformed MAC gives 400 "Invalid MAC address format" and no request; otherwise the device unblock |
| ClientRoutes.Placeholder | backend/src/routes/clients.js:28-34 | the placeholder has ip null, hostname 'Not connected', status 'offline' and is blocked |
| ClientRoutes.FilterBlocked | backend/src/routes/clients.js:22 | holds exactly the blocked connected clients and keeps their MACs distinct (order in FilterBlockedAppend) |
| ClientRoutes.Placeholders | backend/src/routes/clients.js:25-36 | placeholders only for blocked entries not connected; their MACs are exactly those entries (order in PlaceholdersAppend, counts in PlaceholderCounts) |
| ClientRoutes.FilterBlockedAppend | backend/src/routes/clients.js:22 | the filter distributes over concatenation and keeps a single record exactly when it is blocked, so kept records stay in order |
| ClientRoutes.PlaceholdersAppend | backend/src/routes/clients.js:26-36 | the placeholders of a concatenated blocked list are those of each part, in blocked-list order |
| ClientRoutes.PlaceholderCounts | backend/src/routes/clients.js:26-36 | an unconnected MAC gets one placeholder per entry in the blocked list; a connected one gets none |
| ClientRoutes.BlockedView | backend/src/routes/clients.js:22-36 | every record of the view is blocked and the blocked connected clients come first |
| ClientRoutes.AssembleBlockedView | backend/src/routes/clients.js:22-36 | the filter and the loop over the blocked MACs build the view |
| ClientRoutes.BlockedRoute | backend/src/routes/clients.js:16-42 | fails exactly when a read fails; otherwise the view of one reading of the listing |
| ClientRoutes.ViewAllBlocked | backend/src/routes/clients.js:22-36 | every record is blocked; connected clients come first in order; the rest are placeholders for unconnected MACs |
| ClientRoutes.PlaceholdersDistinct | backend/src/routes/clients.js:26-35 | a blocked list with no duplicates gives placeholders with distinct MACs |
| ClientRoutes.ViewRepeatsDuplicates | backend/src/routes/clients.js:26-36 | an unconnected blocked MAC appears in the view as many times as the blocked list holds it |
| ClientRoutes.DuplicateBlockedListedTwice | backend/src/routes/clients.js:26-36 | a blocked list holding an unconnected MAC twice gives two identical placeholders, so the view's MACs are not distinct |
| ClientRoutes.ViewDistinct | backend/src/routes/clients.js:22-36 | connected clients and placeholders never share a MAC |
| ClientRoutes.ViewMacs | backend/src/routes/clients.js:22-36 | with consistent flags, the view's MACs are exactly the blocked ones |
| ClientRoutes.ViewListsEachBlockedOnce | backend/src/routes/clients.js:22-36 | each blocked MAC appears exactly once, and nothing else appears |
| ClientRoutes.SnapshotViewListsEachBlockedOnce | backend/src/routes/clients.js:16-42 | for one reading, each blocked entry appears in the view exactly once |
| DhcpRoutes.PostStatic | backend/src/routes/dhcp.js:16-45 | missing MAC, then missing IP, then bad format, then the validator's error: the first failure wins; only a request passing all reaches the mapping call |
| DhcpRoutes.DeleteStatic | backend/src/routes/dhcp.js:48-61 | 400 "MAC address is required" exactly when the MAC is missing; otherwise the delete call |
| DhcpRoutes.ValidateIp | backend/src/routes/dhcp.js:64-82 | 400 exactly when the IP is missing; otherwise valid exactly when the validator gives no error, which is passed on |
| DhcpRoutes.PostStaticFormatIsMacPattern | backend/src/routes/dhcp.js:29-32 | the format check accepts exactly the well-formed MACs of the client routes |
| DhcpRoutes.DeleteSkipsFormat | backend/src/routes/dhcp.js:52-56 | a malformed MAC refused by POST /static is still passed to the delete call |
| DhcpRoutes.ValidatorErrorIsNotAnHttpError | backend/src/routes/dhcp.js:72-76 | a validator error gives a normal answer with valid false, while POST /static turns it into 400 |
| Auth.Authenticate | backend/src/middleware/auth.js:4-18 | a missing or non-Bearer header gives 401 "Authentication required"; otherwise `next` exactly when the token equals the password, else 401 "Invalid credentials" |
| Auth.Login | backend/src/middleware/auth.js:21-34 | a falsy password gives 400, a mismatch 401; success exactly on a match, returning the password as token |
| Auth.TokenOfBearer | backend/src/middleware/auth.js:11 | dropping seven characters from "Bearer " + t gives t |
| Auth.AuthenticateIff | backend/src/middleware/auth.js:7-17 | `next` is called exactly for the header "Bearer " + the admin password |
| Auth.LoginTokenAuthenticates | backend/src/middleware/auth.js:7-33 | the token of a successful login, sent as a Bearer header, passes the middleware |
| Auth.UnsetPasswordLocksOut | backend/src/middleware/auth.js:1-30 | with no admin password no login succeeds and no header passes |
| Auth.EmptyPasswordAsymmetry | backend/src/middleware/auth.js:7-30 | with an empty admin password every login fails, yet a header value of exactly "Bearer " passes the middleware function |
| Router.Match | frontend/src/router/index.js:4-34 | the matched route is the first declared route with that path; none exactly when no route has it |
| Router.Guard | frontend/src/router/index.js:42-52 | auth-required and unauthenticated goes to /login; /login when authenticated goes to /; everything else proceeds |
| Router.OnlyLoginIsPublic | frontend/src/router/index.js:4-34 | every declared route but /login requires authentication |
| Router.UnauthenticatedLandsOnLogin | frontend/src/router/index.js:45-50 | an unauthenticated user proceeds to a declared route only when it is /login |
| Router.RedirectTargetProceeds | frontend/src/router/index.js:42-52 | the target of a redirect is let through, so redirects never loop |
| Router.AuthenticatedProceeds | frontend/src/router/index.js:45-50 | an authenticated user is redirected only away from /login; unknown paths always proceed |

## Left out

- HTTP transport is not modelled:
  - the axios client, Basic-auth header construction, environment reads other than BLOCKED_ALIAS_NAME, and console logging;
  - a remote call is reduced to its `data` (an `Option`) or its failure (a `Fault`, `reachable` or `Unreachable`).
- The timestamp of `new Date().toISOString()` is a parameter. The note is "Blocked on " followed by it.
- Error rewrapping is not modelled. Each mutator reports only its own "Failed to block/unblock device/alias" message,
  as the source does after its catch; the inner messages are dropped there anyway.
- PfSense.Service.GetConnectedClients: `Promise.all` rejects with whichever read fails first, which depends on
  timing. The model reports the leases' error, then the ARP error, then the listing's error; its contract only says
  the message is one of those that failed.
- Concurrent mutators are not modelled, nor the lost update between two read-modify-write calls. Each method runs
  alone against the state.
- ClientRoutes.BlockedRoute: the source reads the alias listing twice, once directly and once inside
  getConnectedClients. The model reads one snapshot for both.
- Address entries are strings. A non-string entry, for which `addr.trim()` would throw, is not modelled. Fields that
  are absent or not arrays are None.
- MAC parameters and request fields are strings or absent. JSON values of other types in a request body are not
  modelled.
- Express response wrapping is reduced to status, success flag and text.
- Router.Match: vue-router matches paths case-insensitively and with an optional trailing slash. The model matches
  exact paths only. The lazy component imports and `createWebHistory` are not modelled.
- `getSystemInfo`, `getInterfaceStats`, `getAliases` itself and `GET /static` are pure pass-throughs with no logic, so
  they are not modelled. `GET /connected` just returns getConnectedClients.
- `validateStaticIP`, `setStaticDHCPMapping` and `deleteStaticDHCPMapping` are not part of this model:
  - the validator is an uninterpreted function parameter;
  - the two service calls are the outcome the DHCP routes forward to.
- backend/src/routes/blocked.js, groups.js, pending.js and stats.js are not part of this model, nor pfsense-proxy.js,
  backend/src/index.js or the front-end stores. They rest on service methods not shown or on I/O.
