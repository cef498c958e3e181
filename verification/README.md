# Smartenit Rescue, modelled and proved

Smartenit Rescue is an MQTT bridge for mains switches. It talks to a broker on one side and to a backend on the
other: the Harmony G2 gateway, which can be commanded but not observed, or an in-memory simulator. Its promise is
that it never invents device state and never replays a physical command. This project models the bridge, both
backends and the codecs between them in Dafny 4.11, and proves that promise and the properties it rests on.

Everything is checked by `dafny verify dfyconfig.toml`.

## How the model is built

Code that changes objects in place is a class here too: `Gateway.HarmonyG2Backend`, `Client.G2Client`,
`Store.SessionStore`, `Transport.PinnedG2Transport`, `Simulator.SimulatorBackend`, `Bridge.BridgeRuntime` and
`Redactor.ProcessMonitor` have the original's fields and loops. Each of their methods is proved equal to a function
over values (`Backend.Maintain`, `Runtime.Turn` and so on), and the theorems are about those functions, so they hold
of the classes.

The outside world is arbitrary. The clock is any sequence of UTC instants, in microseconds, monotone or not. The
gateway answers each request by any exchange, which may depend on the whole history. Every step of a save may fail.
The broker delivers any events, may refuse any call, and may publish the bridge's will between two turns. A third
backend answers each call as an arbitrary script says. A history (`Transport.Event`) records the requests sent and
the sessions loaded and committed; a log records what was published and subscribed.

Exceptions are values: `Option`, `Result`, or a flag that says whether a step returned; `Transport.Error` distinguishes
the RescueErrors from an exception that is none. Every function that the
runtime can leave by an exception yields the state it leaves behind, so statements about exceptional exits are
statements about that state.

| file | models |
|---|---|
| Text, Wrappers | strings, optional values |
| Identity, Topics | device and endpoint identity, topic layout, payloads |
| Values, JsonText, Calendar | bounded JSON traversal, the JSON reader and writer of the session file, RFC 3339 expiry |
| Session, Store, Durable | the session file and its crash-safe replacement |
| Transport, Inventory, Client | pinned requests, inventory pages, renewal and commands |
| Model, Backend, Gateway | the contract between runtime and backends, the gateway backend as functions and as a class |
| Safety, Binding, Outcomes, Conditions, Escape | its invariant, what can be bound, its command outcomes, when its operations succeed, the exceptions that escape it |
| Runs, Rate, Recovery, Restoration | whole runs, rates, recovery of the backend and of what the broker retains |
| Example | one complete world that meets the hypotheses of the theorems about runs, and runs with a surprise |
| Simulator | the observable backend |
| Runtime, Bridge | the event loop as functions and as a class |
| Retained, Snapshots, Reports | what the broker retains: availability, snapshots, the last command |
| Replay, Delivery, Mirror, Gate, Loopback, Stops | no replay, what is sent, mirrored state, the snapshot gate, no feedback, what ends the loop |
| Discovery | the component map of a discovery document |
| Redactor | the streaming redactor of the integration harness |
| Archive | the source-archive preflight |

## Main results

- No replay: over every run, the command requests are an order-preserving one-to-one image of command messages
  received while connected (`Replay.NoReplay`), from `open` to `close` (`Replay.EveryCommandWasAskedFor`). Exactly the
  messages for online devices whose maintenance succeeds are sent on (`Delivery.RunSendsExactly`).
- The reachable states of the gateway backend are uniform, bound as configured, and never use a token that was not
  durable first (`Runs.ReachableStatesAreSound`); outcomes are truthful (`Outcomes.SentCommandComesTo`); commands go
  out only in a fresh state (`Runs.CommandIsFresh`).
- Opening, maintaining and commanding succeed exactly under conditions on what the gateway delivered, what the session
  file holds and how a save went (`Conditions.OpenSucceedsExactly`, `Conditions.MaintainSucceedsExactly`,
  `Conditions.CommandIsSentIff`), down to the members of the JSON objects (`Session.RenewalIsExact`,
  `Inventory.EntryIsExact`, `Binding.SnapshotIsExact`).
- The broker retains the bridge as online exactly between a snapshot and a will (`Snapshots.BridgeIsOnlineExactly`), each
  device as the backend reported it (`Snapshots.SnapshotShows`), and of each last command a report that is true of the
  wire (`Reports.LastCommandIsTrue`). A due turn against a healthy gateway restores the retained availability
  (`Restoration.TurnRestoresDevices`).
- A restart finds the newest saved session whole, and so does a crash at any point of any save
  (`Durable.RestartFindsLastSaved`, `Durable.CrashFindsWholeSession`).
- Refresh is limited to one attempt a minute, and two due refreshes recover (`Runs.RefreshRateIsBounded`,
  `Recovery.TwoRefreshesRecover`, `Recovery.RefreshesRecoverFromOpen`).
- Exactly one kind of exception escapes the backend, and exactly when is proved (`Escape.RefreshEscapes`,
  `Escape.SetDesiredEscapes`, `Stops.RunStops`).
- Retained availability never disagrees with the cache or, after a connected turn, with the backend
  (`Replay.AvailabilityIsRetained`); over the simulator retained state is exactly what the received commands add up to
  (`Mirror.SimulatorIsMirrored`); nothing stale is offered as live at any publication (`Gate.SnapshotGate`); the bridge
  never hears itself (`Loopback.NeverHearsItself`).
- Loops with seen-sets, holdback and early exits equal their plain specifications (`Client.InventoryIsExact`,
  `Values.JsonValue`, `Redactor.DrainStderr`, `Archive.PreflightTar`).

## Where the code does not do what one would expect

- A reply whose JSON nests more deeply than the interpreter can follow makes `json.loads` raise a RecursionError, which
  neither `request` nor the backend catches (transport.py:240-248, backend.py:226 and backend.py:238). It escapes
  `refresh` and `set_desired`, the latter after the command was submitted, with every device still online, and it ends the
  event loop. `Escape.RefreshEscapes`, `Escape.SetDesiredEscapes` and `Stops.RunStops` say that this happens if and only
  if there is such a reply; `Example.DeepReplyEscapesCommand` and `Example.DeepReplyEscapesRefresh` are runs in which it
  does. A deep session file makes `open` raise likewise (`Escape.OpenEscapes`, `Escape.DeepFileEscapes`).
- docs/harmony-g2.md:140 says that availability goes offline when a G2 request fails. A command refused with status 400
  leaves every device online (`Example.RefusalLeavesOnline` is a run), and a reply that nests too deeply leaves
  availability as it is. Every other failed request, of a refresh, of a command or of the maintenance before it, does take
  every device offline (`Escape.FailedRefreshTakesDevicesOffline`, `Escape.FailedCommandTakesDevicesOffline`).
  `Outcomes.RefreshIsSound` and `Outcomes.SetDesiredIsSound` say the same of maintenance that fails for any reason, a
  refused save or an inventory that does not match included, and say when devices are online instead.
- docs/harmony-g2.md:141 says that session and inventory are rechecked at most once per minute. That holds of
  `refresh`; a command performs its own maintenance and does not move the schedule. `Rate.MaintenanceReads` says exactly
  when the inventory is read; `Rate.CommandsAreNotRateLimited` and `Example.RateLimitFails` show the limit broken.
- `save` writes documents that `load` refuses. Two valid tokens can escape to more than 32,768 bytes
  (`Session.OversizedSessionExists`); such a session is lost to `load`, and the file blocks every later save
  (`Session.LoadAfterSave`).
- Two due refreshes bring the devices online, but with a clock that runs back they can be offline again after the second:
  a token that a granted but unsaved renewal replaced may then be used once more without a renewal being due.
  `Recovery.TwoRefreshesRecover` gives the exact condition and `Example.SecondRefreshCanEndOffline` a run; with a clock
  that never runs back it does not happen (`Recovery.RefreshesRecoverFromOpen`).
- A backend may offer an endpoint both with and without feedback, which neither backend here does. The bridge would serve
  it in one of the two modes while its discovery document advertises both, and some advertised topic would never be
  published (`Discovery.AdvertisedTopicsAreGenerated`).
- Path normalization is not idempotent: a leading "." can hide a drive letter (`Archive.DriveCanHideBehindDot`;
  `Archive.NormalizeIsIdempotentUnlessDriveRooted` gives the exact condition).
- Two branches cannot be reached: "G2 binding is unavailable" in `set_desired` (`Outcomes.SetDesiredIsSound`), and the
  last check for several roots in the topology of a source archive (`Archive.SeveralRootsAreFoundBefore`).

## Model

| member | source | states |
|---|---|---|
| Identity.ParseAcceptsExactlySpellings | src/smartenit_rescue/models/identity.py:24-43 | parsing accepts a text if and only if it is one of the documented spellings (optional 0x, either case, bare or colon- or dash-grouped digits) and returns the device it spells |
| Identity.CanonicalParses | src/smartenit_rescue/models/identity.py:24-44 | a printed device id parses back to itself |
| Topics.RenderInjective | src/smartenit_rescue/mqtt/topics.py:23-45 | two generated topics of any kind and address have the same name only if they are the same topic, whatever the two prefixes are |
| Topics.CommandTopicRoundTrip | src/smartenit_rescue/mqtt/topics.py:29-80 | the command-topic parser inverts the printer on exactly the on/off addresses, and it does so if and only if the prefix has no wildcard and no NUL |
| Topics.OnOffRoundTrip | src/smartenit_rescue/mqtt/topics.py:89-102 | a payload decodes to a value if and only if it is what that value encodes to: exactly ON or OFF |
| Topics.BridgeNamesInLiterals | src/smartenit_rescue/mqtt/topics.py:23-27 | the availability topics of the bridge and of a device are the documented names |
| Topics.DiscoveryNameInLiterals | src/smartenit_rescue/mqtt/topics.py:41-42 | the discovery topic of a device is the documented name |
| Topics.AddressNamesInLiterals | src/smartenit_rescue/mqtt/topics.py:29-39 | the four topics of an on/off address are prefix, device, endpoint, on_off and the kind, in that order |
| Values.JsonValue | src/smartenit_rescue/backends/harmony_g2/transport.py:135-162 | the early-aborting traversal succeeds exactly on supported, finite values within depth 32 and 10,000 nodes, and then returns the number of nodes |
| Values.JsonItems | src/smartenit_rescue/backends/harmony_g2/transport.py:146-161 | the loop over children succeeds exactly if every child is acceptable one level deeper and the total stays in bounds |
| Values.AcceptableContainer | src/smartenit_rescue/backends/harmony_g2/transport.py:146-161 | a container is acceptable if and only if its keys are text, its children are acceptable one level down and its node count is in bounds |
| Transport.SwitchPathIsExact | src/smartenit_rescue/backends/harmony_g2/transport.py:107-121 | the POST command routes are exactly the On/Off paths of well-formed endpoints |
| Transport.RequestsInLiterals | src/smartenit_rescue/backends/harmony_g2/client.py:50-54 | the verb, path, body and credential of the three requests, in literals: ON is the method On and OFF the method Off of the component |
| Transport.ClientRequestsAreValid | src/smartenit_rescue/backends/harmony_g2/transport.py:107-185 | every renewal, inventory and command request the client can build passes the route, body and credential checks, 8192-character tokens that escape in full included |
| Transport.CommandsAreRecognisable | src/smartenit_rescue/backends/harmony_g2/client.py:170-186 | the wire form alone tells a command from a renewal or an inventory read and names the device, component and direction that were meant |
| Transport.ParseResponse | src/smartenit_rescue/backends/harmony_g2/transport.py:210-263 | an answered exchange yields a payload, a response or transport error, or, when its body overwhelms the JSON reader, an exception that is none of these |
| Transport.Perform | src/smartenit_rescue/backends/harmony_g2/transport.py:307-359 | a request raises "before submission" or "after submission" according to the phase reached, lets only the JSON reader's RecursionError through, and returns a payload only when it was delivered whole |
| Transport.OutcomeIsSound | src/smartenit_rescue/backends/harmony_g2/transport.py:240-359 | the submission flag is truthful: "not started" is reported if and only if nothing was submitted, success if and only if an acceptable object was delivered, an uncaught exception if and only if a complete 2xx body nested too deeply, and a response error carries the status that was answered |
| Transport.PinnedG2Transport.Request | src/smartenit_rescue/backends/harmony_g2/transport.py:284-359 | a valid request is recorded as sent and comes to the outcome of its exchange, uncaught exception included; an invalid one is refused without being sent |
| Calendar.CivilRoundTrip | src/smartenit_rescue/backends/harmony_g2/session.py:52-68 | splitting an instant into calendar fields and assembling them again gives the instant, over the whole range of years 1 to 9999 |
| Calendar.MonthsInLiterals | src/smartenit_rescue/backends/harmony_g2/session.py:52-68 | the lengths of the twelve months, of a common year and of a leap year |
| Calendar.ExpiryRoundTrip | src/smartenit_rescue/backends/harmony_g2/session.py:52-68 | a text parses to an expiry if and only if it is the canonical text of that expiry, with or without microseconds |
| JsonText.LoadOfDump | src/smartenit_rescue/backends/harmony_g2/session.py:197-220 | wherever an object can be read at all, reading the JSON text written for a flat object of visible strings gives the members back |
| JsonText.DeepTextCrashes | src/smartenit_rescue/backends/harmony_g2/session.py:199-203 | a text nested one level deeper than the interpreter can follow makes the reader raise something other than a decode error |
| JsonText.QuoteSize | src/smartenit_rescue/backends/harmony_g2/session.py:215-220 | quoting adds two characters and one for each escaped character |
| Session.Lifetime | src/smartenit_rescue/backends/harmony_g2/session.py:100-112 | an accepted lifetime is positive before rounding, at most 366 days, and at least a second when it is an integer |
| Session.ParseRefreshed | src/smartenit_rescue/backends/harmony_g2/session.py:87-117 | a renewed session expires between now and now plus 366 days; Session.RenewalIsExact says which responses are accepted |
| Session.LifetimeIsExact | src/smartenit_rescue/backends/harmony_g2/session.py:98-112 | a lifetime is accepted if and only if it is a positive number of at most 366 days, and is then exactly that many seconds, a fraction rounded to the nearest microsecond |
| Session.RenewalIsExact | src/smartenit_rescue/backends/harmony_g2/session.py:87-117 | a response is accepted if and only if it has two valid tokens, a lifetime in bounds, "Bearer" if there is a token type and nothing else; the session has those tokens and expires that lifetime after now |
| Session.SessionRoundTrip | src/smartenit_rescue/backends/harmony_g2/session.py:151-220 | decoding the document that a session is saved as gives the session back |
| Session.DecodeIsExact | src/smartenit_rescue/backends/harmony_g2/session.py:151-162 | a text is read as a session if and only if it is an object of exactly the three text fields with valid tokens and the canonical text of the expiry |
| Session.DocumentInLiterals | src/smartenit_rescue/backends/harmony_g2/session.py:211-220 | the stored document, member by member, without spaces and in the order of the names |
| Session.SaveReturnsExactly | src/smartenit_rescue/backends/harmony_g2/session.py:206-256 | a save replaces the file if and only if every step up to the replacement succeeds and the old file is not too large, and returns if and only if the directory is synced too |
| Session.EncodedSizeIsExact | src/smartenit_rescue/backends/harmony_g2/session.py:211-220 | the size of the stored document, escapes included, computed from the session alone |
| Session.SaveIsAtomic | src/smartenit_rescue/backends/harmony_g2/session.py:206-256 | at every point of any save, whichever step fails and whatever earlier saves left behind, the session path holds the complete old or the complete new document and never goes back; earlier temporary files are untouched, and its own survives only if the save failed and so did the removal |
| Session.LoadAfterSave | src/smartenit_rescue/backends/harmony_g2/session.py:169-256 | a saved session can be loaded if and only if its document is at most 32,768 bytes; beyond that the load fails and every later save is refused without touching the file |
| Session.OversizedSessionExists | src/smartenit_rescue/backends/harmony_g2/session.py:19-37 | there are valid sessions whose document exceeds the size limit |
| Store.SessionStore.LoadSession | src/smartenit_rescue/backends/harmony_g2/session.py:169-204 | the stepwise load returns what the file decodes to, repeated and non-text members included, or raises a ValidationError or the JSON reader's own exception, and records the session it returned |
| Store.SessionStore.SaveSession | src/smartenit_rescue/backends/harmony_g2/session.py:206-256 | the stepwise save passes through exactly the disk states of Session.RunSave, each recorded as a point where it could be interrupted, and records a commit when the file is replaced |
| Durable.RestartFindsLastSaved | src/smartenit_rescue/backends/harmony_g2/backend.py:179-186 | after open, raising or not, and any run that follows, however its renewals, saves and commands went, the session file holds the newest saved session whole, or is untouched if none was saved; a restart can read it if and only if it is within the size limit |
| Durable.CrashFindsWholeSession | src/smartenit_rescue/backends/harmony_g2/backend.py:179-186 | at every disk state that any save passed through, of open, raising or not, or of any run that follows, the session path held the provisioned file or the whole document of a session saved by then, and later disk states show no earlier point of the history |
| Durable.SaveFollows | src/smartenit_rescue/backends/harmony_g2/session.py:223-256 | the file and the record of a save change together or not at all, at every disk state in between |
| Inventory.Processors | src/smartenit_rescue/backends/harmony_g2/client.py:57-68 | the loop returns all processor names in order, or fails if any entry is malformed |
| Inventory.OnOffComponents | src/smartenit_rescue/backends/harmony_g2/client.py:71-87 | the loop returns the ids of exactly the components that have an OnOff processor, in order, or fails |
| Inventory.ScanDevice | src/smartenit_rescue/backends/harmony_g2/client.py:137-165 | one device extends the seen-sets and the endpoint list, or is refused for a malformed or repeated identity |
| Inventory.ScanPage | src/smartenit_rescue/backends/harmony_g2/client.py:137-165 | one page extends the scan device by device, or is refused as soon as one device is |
| Inventory.ScanEntriesIsExact | src/smartenit_rescue/backends/harmony_g2/client.py:124-165 | scanning on with the seen-sets accepts exactly the continuations in which no local id, hardware id or component repeats |
| Inventory.ListedPairsAreUnique | src/smartenit_rescue/backends/harmony_g2/client.py:158-165 | no (hardware id, component) pair is listed twice |
| Inventory.PageSizeIsAsked | src/smartenit_rescue/backends/harmony_g2/client.py:120-168 | a page counts as full at exactly the limit that the request asks for |
| Inventory.ComponentIsExact | src/smartenit_rescue/backends/harmony_g2/client.py:57-88 | a component is read as having OnOff if and only if all its processors have names and one is OnOff, and then under its own id; as lacking it if none is |
| Inventory.OnOffIdsAreExact | src/smartenit_rescue/backends/harmony_g2/client.py:71-88 | the components of a device are read as exactly the ids of those with OnOff, in order |
| Inventory.EntryIsExact | src/smartenit_rescue/backends/harmony_g2/client.py:120-168 | a device is read if and only if it has a local id and readable components, and a valid hardware id if it has an OnOff component; it is read as exactly these |
| Inventory.PageIsReadExactly | src/smartenit_rescue/backends/harmony_g2/client.py:120-168 | the list of a page is read if and only if each of its devices is, in order |
| Client.SweepIsExact | src/smartenit_rescue/backends/harmony_g2/client.py:128-168 | from any page on, the sweep succeeds exactly on the listings that end there or later |
| Client.InventoryIsExact | src/smartenit_rescue/backends/harmony_g2/client.py:120-168 | the inventory read succeeds if and only if the listing ends at a page of under 100 items, at most page 100, with every entry readable and nothing repeated; it returns the OnOff components in order and has asked for pages 1 to k once each, in order |
| Client.InventoryPairsAreUnique | src/smartenit_rescue/backends/harmony_g2/client.py:120-168 | a successful inventory read never lists a (hardware id, component) pair twice, so a binding can be missing but never ambiguous |
| Client.PageIsListedExactly | src/smartenit_rescue/backends/harmony_g2/client.py:120-168 | a page lists these devices if and only if its exchange delivered an object whose data member is a list of them |
| Client.G2Client.ReadInventory | src/smartenit_rescue/backends/harmony_g2/client.py:120-168 | the page loop, with its seen-sets and early exits, is Client.Endpoints in requests and result; Client.InventoryIsExact says what that is |
| Client.G2Client.RenewSession | src/smartenit_rescue/backends/harmony_g2/client.py:103-118 | renewal sends one request and yields the parsed session or the response error |
| Client.G2Client.SwitchOnOff | src/smartenit_rescue/backends/harmony_g2/client.py:170-188 | the command sends one request and returns as Client.SetOnOff says; Outcomes.SetOnOffIsExact and Outcomes.SentCommandComesTo say when it succeeds |
| Gateway.TakeSnapshot | src/smartenit_rescue/backends/harmony_g2/backend.py:81-130 | the loop binds every configured device to its one match, in order, or fails; Binding.SnapshotIsExact says when |
| Safety.BindIsFaithful | src/smartenit_rescue/backends/harmony_g2/backend.py:81-130 | a successful snapshot binds exactly the configured ids, each to an inventory endpoint with its own hardware id and component, and its device list depends on the configuration alone |
| Safety.MatchesAreExact | src/smartenit_rescue/backends/harmony_g2/backend.py:98-107 | the matches of a binding are exactly the inventory endpoints with its hardware id and component |
| Binding.ProfileIsExact | src/smartenit_rescue/backends/harmony_g2/backend.py:61-78 | a profile is found if and only if it is the only one of its name, lists a model and declares a writable OnOff at endpoint 1 |
| Binding.BindIsExact | src/smartenit_rescue/backends/harmony_g2/backend.py:81-130 | the loop binds settings if and only if their ids are distinct and each fits: one inventory entry with its pair, one usable profile of its name; each device is then offered and bound as just that |
| Binding.SnapshotIsExact | src/smartenit_rescue/backends/harmony_g2/backend.py:81-130 | the same of the whole function, which refuses an empty configuration: success, devices and bindings are characterised without the loop |
| Gateway.HarmonyG2Backend.constructor | src/smartenit_rescue/backends/harmony_g2/backend.py:136-168 | a fresh backend has every device online at the discovery time and no renewal pending |
| Gateway.HarmonyG2Backend.TakeSession | src/smartenit_rescue/backends/harmony_g2/backend.py:179-186 | opening loads a session and, if it is due, renews and saves it before it is used |
| Gateway.HarmonyG2Backend.OpenBackend | src/smartenit_rescue/backends/harmony_g2/backend.py:170-198 | opening object by object is Backend.Open, in its requests, its resulting state and the exception it raises; Outcomes.OpenIsSound and Escape.OpenEscapes say what that guarantees |
| Gateway.HarmonyG2Backend.MarkDevice | src/smartenit_rescue/backends/harmony_g2/backend.py:328-334 | one device gets the state at a fresh clock reading |
| Gateway.HarmonyG2Backend.MarkEvery | src/smartenit_rescue/backends/harmony_g2/backend.py:324-326 | every device gets the state, one clock reading each |
| Gateway.HarmonyG2Backend.RotateSession | src/smartenit_rescue/backends/harmony_g2/backend.py:302-309 | renewal, save, and only then use of the new session |
| Gateway.HarmonyG2Backend.RediscoverDevices | src/smartenit_rescue/backends/harmony_g2/backend.py:317-322 | inventory, snapshot, then rebinding with every device online |
| Gateway.HarmonyG2Backend.MaintainSession | src/smartenit_rescue/backends/harmony_g2/backend.py:300-322 | maintenance in place is Backend.Maintain: renew if forced or due, then read the inventory only if stale or some device is offline; Safety.MaintainIsSound says what that guarantees |
| Gateway.HarmonyG2Backend.HandleFailure | src/smartenit_rescue/backends/harmony_g2/backend.py:226-230 | a RescueError of maintenance leaves every device offline and, after 401 or 403, a renewal pending |
| Gateway.HarmonyG2Backend.RefreshBackend | src/smartenit_rescue/backends/harmony_g2/backend.py:218-230 | refresh in place is Backend.Refresh: nothing when closed or not due, the next due time moved before the attempt, a RescueError turned into offline devices, any other exception passed on with availability untouched |
| Gateway.HarmonyG2Backend.SetDesiredState | src/smartenit_rescue/backends/harmony_g2/backend.py:232-273 | set_desired in place is Backend.SetDesired in state, history, result and escaping exception; Outcomes.SetDesiredIsSound and Escape.SetDesiredEscapes say what that guarantees |
| Gateway.HarmonyG2Backend.AvailabilityOf | src/smartenit_rescue/backends/harmony_g2/backend.py:207-216 | a known device reports its recorded availability, any other is unknown |
| Gateway.HarmonyG2Backend.CloseBackend | src/smartenit_rescue/backends/harmony_g2/backend.py:275-279 | close in place takes every device offline once; a second call changes nothing |
| Safety.RotateIsSound | src/smartenit_rescue/backends/harmony_g2/backend.py:302-309 | a rotation sends no command, keeps every used token durable, and ends with the new session committed or with the backend unchanged |
| Safety.RediscoverIsSound | src/smartenit_rescue/backends/harmony_g2/backend.py:317-322 | a rediscovery sends no command, keeps the configured bindings and, when it succeeds, leaves every device online |
| Safety.MaintainIsSound | src/smartenit_rescue/backends/harmony_g2/backend.py:300-322 | after successful maintenance no renewal is pending, every device is online, the inventory is under 60 seconds old and the session has over five minutes left or was renewed in this step; after a failed one availability is as before |
| Safety.MarkAllIsUniform | src/smartenit_rescue/backends/harmony_g2/backend.py:324-334 | marking all devices gives every bound device the same state and changes nothing else |
| Safety.MarkedInOrder | src/smartenit_rescue/backends/harmony_g2/backend.py:324-334 | each device is marked at a clock reading of its own, in order |
| Outcomes.SetOnOffIsExact | src/smartenit_rescue/backends/harmony_g2/client.py:170-188 | no error means a delivered object whose success member is true itself, a transport error "not started" means nothing was submitted, an uncaught exception means the reply overwhelmed the JSON reader, and a status error means that status was answered |
| Outcomes.SubmitIsSound | src/smartenit_rescue/backends/harmony_g2/backend.py:246-273 | a sent command returns the truthful verdict on its exchange (accepted iff acknowledged, rejected iff not submitted or refused with 400, 401 or 403, indeterminate otherwise), except that it raises, with every device online, if and only if the reply overwhelms the JSON reader |
| Outcomes.SentCommandComesTo | src/smartenit_rescue/backends/harmony_g2/backend.py:246-273 | a sent command is accepted if and only if the exchange delivered an object whose success member is true itself; every other exchange has its own result, reason and availability, and any other delivered object is indeterminate with every device offline |
| Outcomes.SetDesiredIsSound | src/smartenit_rescue/backends/harmony_g2/backend.py:232-273 | set_desired keeps the invariant, lets no RescueError escape, never reaches its "binding is unavailable" branch, and sends at most one command: the one asked for, to the configured component, if and only if it finds no problem and maintenance succeeds, with a truthful outcome unless the reply overwhelms the JSON reader; the exchange of the command decides between all online and all offline, and after failed maintenance every device is offline unless an exception escaped, which leaves availability as it was |
| Outcomes.CommandFailureTakesDevicesOffline | src/smartenit_rescue/backends/harmony_g2/backend.py:252-271 | after a command was sent, every device is online if it was acknowledged, refused with 400 or answered by a body that overwhelms the JSON reader, and every device is offline otherwise |
| Outcomes.RefreshIsSound | src/smartenit_rescue/backends/harmony_g2/backend.py:218-230 | refresh keeps the invariant, sends no command and lets no RescueError escape; before it is due it does nothing, and a due one leaves every device online if its maintenance succeeds, availability as it was if an exception escapes, and every device offline otherwise |
| Outcomes.CloseIsSound | src/smartenit_rescue/backends/harmony_g2/backend.py:275-279 | close leaves the backend closed with every device offline and makes no request |
| Outcomes.OpenIsSound | src/smartenit_rescue/backends/harmony_g2/backend.py:170-198 | open sends no command even when it fails, and when it succeeds the invariant holds with every device online |
| Escape.RefreshEscapes | src/smartenit_rescue/backends/harmony_g2/backend.py:218-230 | an exception escapes refresh if and only if some reply during it is a complete 2xx body that nests too deeply for the JSON reader |
| Escape.SetDesiredEscapes | src/smartenit_rescue/backends/harmony_g2/backend.py:232-273 | an exception escapes set_desired if and only if some reply during it overwhelms the JSON reader |
| Escape.OpenEscapes | src/smartenit_rescue/backends/harmony_g2/backend.py:170-198 | open raises something other than a RescueError if and only if the session file or some reply overwhelms the JSON reader |
| Escape.DeepFileEscapes | src/smartenit_rescue/backends/harmony_g2/session.py:199-203 | a session file of brackets one level too deep makes open raise such an exception |
| Escape.FailedRefreshTakesDevicesOffline | docs/harmony-g2.md:140-143 | a request of refresh that fails takes every device offline, except that availability stays as it was if the reply overwhelms the JSON reader |
| Escape.FailedCommandTakesDevicesOffline | docs/harmony-g2.md:140-143 | so does a request of set_desired, of its maintenance or the command itself, except that every device is online if the command was refused with 400 or its reply overwhelms the JSON reader, and availability stays as it was if a reply to the maintenance does |
| Runs.ReachableStatesAreSound | src/smartenit_rescue/backends/harmony_g2/backend.py:133-334 | in every state reachable from a successful open: availability and bindings cover exactly the configured ids, each binding has the configured identity and component, all devices share one state, a pending renewal or a closed backend means all offline, every token ever sent was durable first, and the device list never changes |
| Runs.ClosedIsAbsorbing | src/smartenit_rescue/backends/harmony_g2/backend.py:275-283 | once closed, a backend stays closed and offline and makes no further request, whatever is called |
| Runs.CommandIsFresh | src/smartenit_rescue/backends/harmony_g2/backend.py:232-255 | a command is sent only with no renewal pending, every device online, the inventory under 60 seconds old, and a token of the current session, which has over five minutes left or was renewed and saved within the call |
| Conditions.RenewIsExact | src/smartenit_rescue/backends/harmony_g2/client.py:103-118 | a renewal is one request with both tokens, and returns a session if and only if the delivered response grants it |
| Conditions.LoadIsExact | src/smartenit_rescue/backends/harmony_g2/session.py:169-203 | load returns a session if and only if the file can be read, is not too large and holds exactly its document |
| Conditions.MaintainSucceedsExactly | src/smartenit_rescue/backends/harmony_g2/backend.py:300-322 | maintenance succeeds if and only if a due renewal is granted and saved, and an inventory that is due lists everything the configuration needs, in terms of what was delivered and how the save went |
| Conditions.CommandIsSentIff | src/smartenit_rescue/backends/harmony_g2/backend.py:232-255 | a command is sent if and only if the backend is open, the device configured, the command an explicit On or Off of OnOff at endpoint 1, and maintenance succeeds |
| Conditions.OpenSucceedsExactly | src/smartenit_rescue/backends/harmony_g2/backend.py:170-198 | open succeeds if and only if the file holds a session, a due renewal of it is granted and saved, and the gateway then lists everything the configuration needs |
| Conditions.MatchIsNeverAmbiguous | src/smartenit_rescue/backends/harmony_g2/backend.py:98-107 | on a successful inventory a configured device is listed once as soon as it is listed at all, so that binding fails on missing devices only |
| Runs.RefreshRateIsBounded | src/smartenit_rescue/backends/harmony_g2/backend.py:218-230 | for any clock, monotone or not, maintenance attempts of refresh are a minute of readings apart; commands do not move the schedule |
| Runs.RefreshRateFromOpen | src/smartenit_rescue/backends/harmony_g2/backend.py:157-230 | the k-th such attempt happens at a reading at least k + 1 minutes after discovery |
| Rate.MaintenanceReads | src/smartenit_rescue/backends/harmony_g2/backend.py:300-322 | a maintenance step reads the inventory if and only if no renewal fails before it and the inventory is a minute old or a device is offline, and then once |
| Rate.CommandsAreNotRateLimited | src/smartenit_rescue/backends/harmony_g2/backend.py:232-245 | the limit of one recheck per minute that docs/harmony-g2.md:141 gives does not hold of commands: with a failing gateway, n commands read the inventory n times within one clock reading |
| Recovery.HealthySweep | src/smartenit_rescue/backends/harmony_g2/backend.py:317-322 | against a healthy gateway an inventory read delivers the listing, or is refused for a token that a later renewal may have replaced |
| Recovery.HealthyMaintenance | src/smartenit_rescue/backends/harmony_g2/backend.py:300-322 | against a healthy gateway maintenance fails if and only if it reads without renewing and that read is refused, and then the token was superseded |
| Recovery.DueRefreshIsExact | src/smartenit_rescue/backends/harmony_g2/backend.py:218-230 | after a due refresh against a healthy gateway every device is offline if and only if its read was refused without a renewal before it, and online otherwise; the refused token was superseded and a renewal is then pending |
| Recovery.TwoRefreshesRecover | src/smartenit_rescue/backends/harmony_g2/backend.py:218-230 | from any open reachable state, for any clock, against a gateway healthy from then on: two due refreshes bring every device online, at the latest with the second, without a command; they end offline if and only if the first left them online and the second reads, without a renewal being due, under a token that is refused; with a token that is not superseded, or a renewal due, both leave them online |
| Recovery.OpenIsCurrent | src/smartenit_rescue/backends/harmony_g2/backend.py:170-198 | a backend opened without earlier renewals holds a token that is not superseded |
| Recovery.RefreshesKeepFreshOpenOnline | src/smartenit_rescue/backends/harmony_g2/backend.py:170-230 | right after open, for any clock, against a gateway healthy from then on, both of two due refreshes leave every device online |
| Recovery.RunKeepsRefreshable | src/smartenit_rescue/backends/harmony_g2/backend.py:218-334 | with a clock that never runs back, whatever fails during a run, a superseded token is always due for renewal before it is used again |
| Recovery.RefreshesRecoverFromOpen | src/smartenit_rescue/backends/harmony_g2/backend.py:170-230 | from every state of every run since open, with a clock that never runs back, against a gateway healthy from then on, two due refreshes bring every device online and keep them online, already the first one does, and no command is sent |
| Restoration.TurnRefreshes | src/smartenit_rescue/runtime.py:93-95 | every connected turn that returns ends with exactly one refresh of the backend |
| Restoration.TurnRestoresDevices | src/smartenit_rescue/runtime.py:93-95 | against a healthy gateway a turn whose refresh is due leaves every device retained online, except exactly after a read that was refused for a superseded token without a renewal before it |
| Example.HypothesesCanBeMet | src/smartenit_rescue/backends/harmony_g2/backend.py:170-230 | there is a gateway, a file system, a clock that never runs back and a provisioned session for which open succeeds, the gateway is healthy and two refreshes fall due, so the theorems about runs and recovery are about something |
| Example.RateLimitFails | src/smartenit_rescue/backends/harmony_g2/backend.py:232-245 | after an open that the gateway served, any number of commands read the inventory that often within one clock reading |
| Example.RefusalLeavesOnline | src/smartenit_rescue/backends/harmony_g2/backend.py:252-256 | a run in which a command answered with 400 leaves every device online |
| Example.EmptyAnswerIsIndeterminate | src/smartenit_rescue/backends/harmony_g2/client.py:187-188 | there are runs in which a command is answered with an empty object or with 1 in place of true and is indeterminate with every device offline, and one in which true makes it accepted |
| Example.DeepReplyEscapesCommand | src/smartenit_rescue/backends/harmony_g2/backend.py:246-268 | a run in which a submitted command returns no result but raises, with every device online |
| Example.DeepReplyEscapesRefresh | src/smartenit_rescue/backends/harmony_g2/backend.py:218-230 | a run in which a due refresh raises, with every device online |
| Example.SecondRefreshCanEndOffline | src/smartenit_rescue/backends/harmony_g2/backend.py:218-230 | a run under a clock that once jumped ahead, and a gateway healthy from then on, in which the first of two due refreshes brings every device online and the second takes them offline again |
| Simulator.SimulatorBackend.OpenSimulator | src/smartenit_rescue/backends/simulator.py:35-114 | the constructor loop is Simulator.Build: devices, observations and counters of all settings, one clock reading per device, or no backend |
| Simulator.SimulatorBackend.SetDesiredState | src/smartenit_rescue/backends/simulator.py:122-169 | a command in place is Simulator.SimSetDesired, and the clock is read only to confirm |
| Simulator.SimulatorBackend.AvailabilityOf | src/smartenit_rescue/backends/simulator.py:171-180 | a known device reports its recorded availability, any other is unknown |
| Simulator.SimulatorBackend.CloseBackend | src/smartenit_rescue/backends/simulator.py:182-183 | close changes nothing but the closed flag |
| Simulator.BuildIsSound | src/smartenit_rescue/backends/simulator.py:49-114 | over distinct ids the simulator is open with one online device per setting in order, and every offered on/off address is a writable command target with an observation of its configured value at sequence zero |
| Simulator.OfferedCommandsAreConfirmed | src/smartenit_rescue/backends/simulator.py:122-169 | an On or Off to an offered address of an open simulator is always confirmed, observed under the next sequence number, and touches no other address |
| Simulator.DeviceOffersExactly | src/smartenit_rescue/backends/simulator.py:66-80 | a device offers exactly the endpoints that its profile declares as writable OnOff |
| Simulator.BuildSucceedsExactly | src/smartenit_rescue/backends/simulator.py:49-60 | construction succeeds if and only if every configured profile exists |
| Simulator.BuildHidesNothing | src/smartenit_rescue/backends/simulator.py:95-112 | every writable OnOff capability that was built belongs to an offered address |
| Simulator.CommandIsConfirmedExactly | src/smartenit_rescue/backends/simulator.py:122-169 | a command is confirmed if and only if the simulator is open, a device offers the address and the command is an explicit On or Off; any other is rejected and changes nothing |
| Bridge.FindCapabilityModes | src/smartenit_rescue/runtime.py:123-138 | exactly the on/off addresses of the devices are found, each once, each in the mode that is declared last |
| Bridge.ValidateStatusTopic | src/smartenit_rescue/runtime.py:140-160 | the check passes if and only if the status topic is none of the generated topics |
| Bridge.CreateRuntime | src/smartenit_rescue/runtime.py:49-70 | a runtime is created only with a status topic that collides with none of its topics |
| Bridge.BridgeRuntime.constructor | src/smartenit_rescue/runtime.py:49-70 | a new runtime is disconnected, open and has published nothing |
| Bridge.MqttTransport.PublishOne | src/smartenit_rescue/runtime.py:171-178 | an accepted publication is appended to the log, a refused one is not |
| Bridge.MqttTransport.SubscribeOne | src/smartenit_rescue/runtime.py:162-168 | an accepted subscription is recorded under its topic name |
| Bridge.BridgeRuntime.SendObservation | src/smartenit_rescue/runtime.py:300-329 | a boolean observation is published as state, then confidence; any other is not published |
| Bridge.BridgeRuntime.SendAddresses | src/smartenit_rescue/runtime.py:190-198 | the observable addresses of a device are published in order; a missing or non-boolean one makes the snapshot incomplete |
| Bridge.BridgeRuntime.SendDevice | src/smartenit_rescue/runtime.py:188-211 | observations first, then the availability, offline if incomplete, which is then remembered |
| Bridge.BridgeRuntime.SendSnapshot | src/smartenit_rescue/runtime.py:170-219 | bridge offline, discovery, devices, bridge online, stopping at the first failure; Snapshots.SnapshotShows says what that leaves retained |
| Bridge.BridgeRuntime.SendChangedAvailability | src/smartenit_rescue/runtime.py:280-298 | the loop publishes exactly the changed or forced availabilities |
| Bridge.BridgeRuntime.Report | src/smartenit_rescue/runtime.py:266-278 | a command-only outcome is published as a diagnostic and followed by availability; an observable one is published when confirmed; Reports.ServedCommandIsReported and Reports.ServedObservationIsShown say what that leaves retained |
| Bridge.BridgeRuntime.Serve | src/smartenit_rescue/runtime.py:251-278 | one numbered command is handed to the backend and its outcome reported |
| Bridge.BridgeRuntime.Handle | src/smartenit_rescue/runtime.py:221-278 | a birth message publishes a snapshot; a command is served only if not retained, QoS 1, on a configured command topic, for an online device, with a decodable payload, checked in this order |
| Bridge.BridgeRuntime.SubscribeAll | src/smartenit_rescue/runtime.py:162-168 | the loop asks for every command topic in order and then the status topic, stopping at the first failure |
| Bridge.BridgeRuntime.React | src/smartenit_rescue/runtime.py:83-92 | connecting subscribes and publishes a snapshot, an unexpected disconnect raises, a message is handled only while connected |
| Bridge.BridgeRuntime.Maintain | src/smartenit_rescue/runtime.py:93-95 | a connected bridge over a refreshable backend refreshes it and publishes what changed |
| Bridge.BridgeRuntime.TakeTurn | src/smartenit_rescue/runtime.py:75-95 | one turn is Runtime.Turn: a stop seen after waiting only records the connection state, otherwise dispatch and then upkeep |
| Bridge.BridgeRuntime.Run | src/smartenit_rescue/runtime.py:72-95 | the loop over the objects is Runtime.RunLoop in state and exit, so the theorems on runs are about it |
| Bridge.BridgeRuntime.CloseRuntime | src/smartenit_rescue/runtime.py:97-121 | close publishes bridge offline if connected and closes the backend in any case; a second call does nothing |
| Retained.RetainedByName | src/smartenit_rescue/mqtt/topics.py:23-45 | the broker retains by topic name exactly what the model retains by topic, because names never collide |
| Retained.SnapshotKeeps | src/smartenit_rescue/runtime.py:170-219 | a snapshot leaves the backend alone and keeps every cached availability equal to the retained one, also when it fails half-way |
| Retained.ChangedKeeps | src/smartenit_rescue/runtime.py:280-298 | publishing only changes leaves every device retained as the backend reports it, so the skipped publications lose nothing |
| Retained.SubscribeKeeps | src/smartenit_rescue/runtime.py:162-168 | subscribing adds an initial run of the names, all of them if and only if it returns, and changes nothing else |
| Retained.CacheIsRetained | src/smartenit_rescue/runtime.py:199-298 | over any backend and every run, at every turn and on an exceptional exit, each cached availability is the payload that the broker retains under that topic name |
| Snapshots.ObservationShows | src/smartenit_rescue/runtime.py:300-329 | a boolean observation is retained as ON or OFF beside the name of its confidence |
| Snapshots.SnapshotShows | src/smartenit_rescue/runtime.py:170-219 | a returned snapshot leaves the bridge retained online, has published offline first and one unretained discovery document per device in order, and leaves each device retained as the backend reports it, or offline if something with feedback had no boolean observation when asked, for any backend |
| Snapshots.TurnPublishesSnapshot | src/smartenit_rescue/runtime.py:78-92 | a connection and a birth message make a turn publish a whole snapshot, right after the subscriptions of a connection |
| Snapshots.BridgeIsOnlineExactly | src/smartenit_rescue/runtime.py:72-95 | over every run with any backend, the bridge is retained online if and only if a connection or birth message has come and no will has fired since |
| Snapshots.CloseTakesBridgeOffline | src/smartenit_rescue/runtime.py:97-121 | closing a connected bridge publishes offline and nothing else |
| Reports.ServedCommandIsReported | src/smartenit_rescue/runtime.py:254-275 | a returned command to an address without feedback leaves retained exactly the direction asked for, the status that the backend returned and the clock reading after it, with any backend |
| Reports.ServedObservationIsShown | src/smartenit_rescue/runtime.py:276-278 | a confirmed boolean observation is retained, and nothing is published for any other outcome of a command to an address with feedback |
| Reports.ReturnedStatusAgrees | src/smartenit_rescue/backends/harmony_g2/backend.py:232-273 | the status that set_desired returns agrees with the exchange of the command it sent, and is a rejection if it sent none |
| Reports.TurnTellsTruth | src/smartenit_rescue/runtime.py:75-95 | a turn that serves a command leaves a true report of it retained, and every other turn leaves the report as it was |
| Reports.LastCommandIsTrue | src/smartenit_rescue/runtime.py:72-95 | over every run over the gateway, the retained report of each address is that of the last command served for it, with its direction and a status that agrees with the wire, and there is none if none was served |
| Reports.UnchangedIsQuiet | src/smartenit_rescue/runtime.py:280-298 | while nothing has changed no availability is published again |
| Reports.ForcedIsPublished | src/smartenit_rescue/runtime.py:268-275 | after a served command without feedback the availability of its device is published again, changed or not |
| Replay.GatewayCommand | src/smartenit_rescue/backends/harmony_g2/backend.py:232-273 | a command handed to the gateway backend puts at most one request on the wire, carrying the device, component and direction asked for |
| Replay.TurnIsAnswered | src/smartenit_rescue/runtime.py:75-95 | one turn sends nothing, or the one command its message asked for while connected |
| Replay.NoReplay | src/smartenit_rescue/runtime.py:72-95 | over every run, the command requests are an order-preserving one-to-one image of a subsequence of the non-retained QoS 1 ON/OFF messages for configured command topics received while connected; connecting, birth messages, refreshing and stopping send none |
| Replay.EveryCommandWasAskedFor | src/smartenit_rescue/runtime.py:72-121 | from an empty history through open, the whole run and close: every command ever sent was asked for by its own message, in order, and every token ever used had been durable before |
| Delivery.CommandIsSentExactly | src/smartenit_rescue/runtime.py:75-95 | a turn sends a command if and only if the bridge is connected, no stop came with the event, the event is a command message for a configured address, the device is online, and the maintenance before the command succeeds |
| Delivery.RunSendsExactly | src/smartenit_rescue/runtime.py:72-95 | in every run over the gateway, the i-th turn sends a command if and only if the loop is still running, the events before imply a connection, and the i-th event is such a message for a device that is ready then |
| Replay.AvailabilityIsRetained | src/smartenit_rescue/runtime.py:93-95 | over the gateway backend, at every turn, exceptional exit included, the cache agrees with the broker, and after every connected turn the retained availability of every device is the backend's |
| Replay.CloseIsQuiet | src/smartenit_rescue/runtime.py:97-121 | closing the bridge sends no command and leaves the backend closed and offline, also when its last publication fails |
| Stops.TurnStops | src/smartenit_rescue/runtime.py:75-95 | with a broker that takes everything, a turn over the gateway raises if and only if it takes an unexpected disconnection or a reply overwhelms the JSON reader |
| Stops.RunStops | src/smartenit_rescue/runtime.py:72-95 | over every run without unexpected disconnections, the event loop ends with an exception if and only if some gateway reply overwhelms the JSON reader |
| Mirror.MessageIsObeyed | src/smartenit_rescue/runtime.py:221-278 | over the simulator one message changes exactly the address it commands, and retained state follows |
| Mirror.TurnIsObeyed | src/smartenit_rescue/runtime.py:75-95 | one turn obeys its event, keeps every mirrored address mirrored, and a connection mirrors all of them |
| Mirror.SimulatorIsMirrored | src/smartenit_rescue/runtime.py:72-95 | at every turn boundary each address shows the last command received while connected, or its initial value, under a sequence number counting those commands; once connected, its retained state topic says that value and its confidence topic says observed |
| Gate.SnapshotIsGated | src/smartenit_rescue/runtime.py:170-219 | the gate holds after every single publication of a snapshot, complete or not |
| Gate.SnapshotGate | src/smartenit_rescue/runtime.py:72-219 | over every run with an observable backend, after every publication: while the bridge may be seen online, each device that may be seen online had all its addresses published in the latest snapshot or after it |
| Loopback.TurnStaysOut | src/smartenit_rescue/runtime.py:140-168 | one turn publishes on generated topics other than command topics, each publication with QoS 1, retained unless it is a discovery document, and with a payload of its kind of topic; and it subscribes to nothing but the status and command topics |
| Loopback.NeverHearsItself | src/smartenit_rescue/runtime.py:140-168 | over every run the bridge subscribes to the status topic and its command topics only, to all of them once connected, and no publication is on a topic of such a name; with the wildcard-free prefix and status topic that the configuration loader requires, no subscription selects a publication |
| Discovery.ComponentIdInjective | src/smartenit_rescue/mqtt/discovery.py:19-79 | component ids differ across devices, endpoints and kinds of component |
| Discovery.AddComponents | src/smartenit_rescue/mqtt/discovery.py:38-90 | the entries of a capability are added without overwriting any |
| Discovery.Components | src/smartenit_rescue/mqtt/discovery.py:19-90 | for the capabilities of any device, an endpoint offered in both modes included, the component map holds exactly two components per observable and three per command-only on/off capability, each under its own id, none overwritten |
| Discovery.AdvertisedTopicsAreServed | src/smartenit_rescue/mqtt/discovery.py:38-90 | every advertised command topic parses to the very address, the advertised payloads are exactly those that decode to what the entity is for, and the state topics are the switch's state, the confidence and the last command, which the bridge publishes in that mode |
| Discovery.AdvertisedTopicsAreGenerated | src/smartenit_rescue/runtime.py:123-138 | the documents of all devices advertise only topics that the bridge generates if and only if no endpoint is offered in both modes, of which the bridge serves one |
| Redactor.OrderRedactions | tests/integration/test_mqtt_runtime.py:62-72 | the redactions are the non-empty values, longest first |
| Redactor.ProcessMonitor.constructor | tests/integration/test_mqtt_runtime.py:54-86 | a new monitor has consumed nothing and knows exactly the non-empty redactions |
| Redactor.FirstMatchIsLongest | tests/integration/test_mqtt_runtime.py:68-77 | because longer values come first, the alternation finds the longest match |
| Redactor.MatchIsDecided | tests/integration/test_mqtt_runtime.py:78-81 | with a full overlap of text behind it, a match does not depend on what follows |
| Redactor.ProcessMonitor.NextMatch | tests/integration/test_mqtt_runtime.py:164-166 | the next match at or after a position, with no match before it |
| Redactor.ProcessMonitor.RedactUpTo | tests/integration/test_mqtt_runtime.py:160-173 | what the scan emits is right for every continuation of the stream |
| Redactor.ProcessMonitor.ConsumeStderr | tests/integration/test_mqtt_runtime.py:153-175 | after every chunk, redacting the whole stream so far with any continuation is what was emitted plus redacting what is pending; the final call empties the pending text |
| Redactor.ProcessMonitor.AppendTail | tests/integration/test_mqtt_runtime.py:177-178 | the tail is the last 1000 characters of everything emitted |
| Redactor.LastCharsAreTheEnd | tests/integration/test_mqtt_runtime.py:177-178 | the tail is the end of the text: its last 1000 characters, or all there are |
| Redactor.DrainStderr | tests/integration/test_mqtt_runtime.py:146-151 | for every set of secrets and every chunking, the final tail is the last 1000 characters of the whole stream redacted at once |
| Redactor.PiecesAreTheText | tests/integration/test_mqtt_runtime.py:153-175 | whole-text redaction partitions the text, and every removed piece is a secret |
| Redactor.NoSecretSurvives | tests/integration/test_mqtt_runtime.py:153-175 | every occurrence of a secret loses at least one character to a removed piece |
| Archive.NormalizedIsPlain | scripts/verify_release_tree.py:475-489 | an accepted path is relative, without empty, "." or ".." segments, backslash or NUL, and keeps the remaining segments |
| Archive.NormalizeAcceptsExactly | scripts/verify_release_tree.py:457-489 | a path is accepted if and only if it is relative, without NUL and drive letter, names something and never goes up |
| Archive.NormalizeIsIdempotentUnlessDriveRooted | scripts/verify_release_tree.py:475-489 | normalizing an accepted path again changes nothing, if and only if the result is not drive-rooted |
| Archive.DriveCanHideBehindDot | scripts/verify_release_tree.py:475-489 | "./C:/x" is accepted as "C:/x", which by itself is refused |
| Archive.AppendMember | scripts/verify_release_tree.py:457-472 | a new path is added once and checked against the disallowed ones, a repeated one is reported |
| Archive.PreflightTar | scripts/verify_release_tree.py:372-409 | the preflight reports nothing if and only if every entry is acceptable, no path repeats and the total is in bounds; it then returns the entries in order, and whatever it reports is a fault of some entry |
| Archive.TopologyIsExact | scripts/verify_release_tree.py:593-644 | the topology check, its last branch included, reports nothing if and only if no file lies above a member and one root holds everything and a project file |
| Archive.SeveralRootsAreFoundBefore | scripts/verify_release_tree.py:636-643 | when every member lies under the root of a project file there is one root, so the last check for several roots never fires |
| Archive.AnyOrderMaterialises | scripts/verify_release_tree.py:593-644 | members without a path twice or a file above another can be written in any order, and the resulting tree does not depend on it |
| Archive.AcceptedArchiveIsTree | scripts/verify_release_tree.py:372-409 | an archive that preflight and topology accept is one tree of distinct plain paths within both size limits, and every order of its members materialises the same tree |

## Left out

- The Paho client, its threads and its queue: the broker is a sequence of events and of accepted or refused calls.
- Loss and delay on the way to the broker: an accepted publication is taken to be delivered, in order, when it is made.
- `connect` at the start of a run and `disconnect` at its end; a failed `publish_and_wait` is a refused publication, and
  whether the will fires is decided between turns only.
- TLS, sockets, certificate hashing, HTTP parsing and the content-type header: one exchange says how far each phase got.
- Operating-system checks of modes, inodes and links around the session file: one flag per step of a load or save.
- Command line, signals, logging, TOML configuration, profile loading and `match_profile`. What the profile loader
  guarantees (a profile has a model, a capability once per endpoint) and what the configuration loader guarantees
  (distinct simulator ids) appear as hypotheses where they are needed.
- `check_public_tree.py`, the metadata and text scanners, wheels and zip archives, decompressors, and the list of
  disallowed path names, which is an arbitrary predicate here. The order in which findings are sorted.
- The JSON text of discovery and last-command documents, and display attributes of discovery components.
- Text encodings: bytes are characters, a session file that is not UTF-8 is not modelled, and `\u` escapes above ASCII are
  one character that no token accepts. Response bodies are given decoded, as a value, malformed or too deep; what too
  deep means for a session file is computed from its text and a number of levels that the interpreter can follow.
- Exceptions of the interpreter that no input decides, such as running out of memory, and the configurable limit of 4300
  digits for converting integers, which is a constant here.
- Instants that are not already UTC: naive clocks, other offsets and overflow beyond the year 9999
  when minutes are added to a clock reading are not modelled. ISO shapes that `_expiry` would parse only to reject are
  rejected at once.
- Floating point: float lifetimes are reals, rounded half to even to a microsecond.
- Request ids are a counter instead of an opaque factory. The `source` and `detail` fields of observations and
  availability are constants of the original and absent here.
- Checks of Python types that Dafny's types make redundant: an invalid command identity, the second test that a desired
  value is boolean, wrong argument types of constructors and codecs.
- Backends other than the two modelled classes, which are scripts that answer every call and are not
  refreshable.
- Reading an archive: the preflight works on the entry list of one that could be read.
