# Wooting 60HE+ toggle for the VirtualHere client — a Dafny model

The Raycast command in `src/main.ts` toggles whether this Mac has claimed a
Wooting 60HE+ keyboard shared over the network by a VirtualHere USB server.
One invocation asks the VirtualHere client for its device listing (`-t LIST`),
polling up to six times, one second apart, until the reply is a complete
listing, else giving up with a failure toast. It reads the keyboard's address
and in-use status off the first line that names the keyboard. It records a
changed state in Raycast's local storage and shows it. In an interactive
launch that finds the keyboard present it then sends `USE,<address>` or
`STOP USING,<address>`, waits a second, and runs once more in the background
to observe the result.

The model is split by component:

- `text.dfy` (module `Text`): the JavaScript string operations the command
  uses. These are `trim` with ECMAScript's exact whitespace set, `split("\n")`,
  `includes`, `startsWith`, `endsWith`, and ASCII `toLowerCase` and
  `capitalize`.
- `listing.dfy` (module `Listing`): the `State` and `Device` types.
  `Device` is a tagged union, and only its present variants carry an address.
  This module also holds the regular expression `/\(([^)]+)\)/`, written by
  hand as a leftmost-match scan, and the parsing part of `getDevice`.
- `retry.dfy` (module `Retry`): `tryUntil`. The operation is an oracle
  `op: nat -> T` giving the result of each call. The method `TryUntil` keeps
  the source's loop and is proved equal to the specification functions
  `Calls`, `Outcome` and `PollTrace`.
- `toggle.dfy` (module `Toggle`): `run`. The class `Controller` holds the
  persisted slot (`storage`), the toggle commands issued (`commands`), and an
  ordered log of LIST calls, toggle commands, delays, toasts, HUD messages and
  subtitles (`trace`). Its environment `env(n)` is the raw output of LIST call
  number `n`. The method `GetDevice` is proved against the pure function
  `Query`, `RecordState` against `Reconcile`, `Flip` against `Flipped`, and
  `Run` against `Invocation`. The properties of an invocation are lemmas
  about `Invocation`. The datatype `LaunchType` stands for Raycast's
  `environment.launchType` (src/main.ts:8), with `Background` the value tested
  at src/main.ts:23 and passed on the re-entry at src/main.ts:37. It is a type,
  not an operation, so it has no row in the table below.
- `effects.dfy`, `wrappers.dfy`: the event type and `Option`.

The source compares the stored string token with the current one. The model
stores `Option<State>` instead, where `None` stands for the slot never having
been written. The only writer stores one of the three tokens, so the two
comparisons agree. The source's `if (!result)` also rejects the empty string.
An empty string can never pass the banner check, so the model tests only for
null.

## Model

| member | source | states |
|---|---|---|
| Listing.State.Token | src/main.ts:40-44 | definition, no contract: the persisted tokens `UNAVAILABLE`, `CONNECTED` and `DISCONNECTED`; their uses are stated by `TokenInjective`, `Toggle.HudLabels` and the `Toggle.SubtitleOf*` lemmas |
| Listing.TokenInjective | src/main.ts:40-46 | two states have the same token exactly when they are the same state, so comparing stored tokens (src/main.ts:17) is comparing states |
| Listing.Device.Address | src/main.ts:48-56 | the address is present exactly when the state is not UNAVAILABLE, and it is the device's address |
| Listing.Device.Status | src/main.ts:48-56 | definition, no contract: the `state` field of the device record, which `run` reads as `currentState` at src/main.ts:15; its meaning is stated by `Device.Address`, `ParseLineCases` and `UnavailableCases` |
| Text.IsTrimmable | src/main.ts:70 | definition, no contract: the code points ECMAScript's `trim` removes (WhiteSpace and LineTerminator); its use is stated by `TrimStartSpec`, `TrimEndSpec` and `TrimShape` |
| Text.Trim | src/main.ts:70 | definition, no contract; its meaning is stated by `TrimShape`, `TrimStartSpec`, `TrimEndSpec` and `TrimIdempotent` |
| Text.TrimStart | src/main.ts:70 | definition, no contract: the leading half of `trim`; its meaning is stated by `TrimStartSpec` |
| Text.TrimEnd | src/main.ts:70 | definition, no contract: the trailing half of `trim`; its meaning is stated by `TrimEndSpec` |
| Text.StartsWith | src/main.ts:77 | definition of `startsWith`, no contract: the prefix of the pattern's length equals the pattern; used by `IsValidListing` |
| Text.EndsWith | src/main.ts:77 | definition of `endsWith`, no contract: the suffix of the pattern's length equals the pattern; used by `IsValidListing` |
| Text.TrimStartSpec | src/main.ts:70 | dropping leading whitespace keeps the longest suffix that does not start with whitespace; everything dropped is whitespace |
| Text.TrimEndSpec | src/main.ts:70 | dropping trailing whitespace keeps the longest prefix that does not end with whitespace; everything dropped is whitespace |
| Text.TrimShape | src/main.ts:92 | `trim` keeps a contiguous middle slice, removes only whitespace from the two ends and leaves neither end whitespace |
| Text.TrimIdempotent | src/main.ts:92 | trimming an already trimmed text changes nothing |
| Text.Includes | src/main.ts:91 | `includes` holds exactly when the needle occurs at some index |
| Text.IncludesFrom | src/main.ts:95 | the scan from index i finds an occurrence exactly when one starts at or after i |
| Text.IndexOf | src/main.ts:90 | the index of the first separator, or the length when there is none |
| Text.Split | src/main.ts:90 | `split("\n")` returns at least one piece, no piece holds a newline, and joining the pieces with newlines gives the text back |
| Text.SplitJoin | src/main.ts:90 | splitting a newline-join of newline-free pieces gives the same pieces back |
| Text.ToLower | src/main.ts:19 | lower-casing keeps every letter up to case and leaves no ASCII upper-case letter |
| Text.LowerChar | src/main.ts:133 | definition, no contract: `toLowerCase` on one ASCII character, as used here and at src/main.ts:19; its meaning is stated by the contracts of `ToLower` and `Capitalize` |
| Text.UpperChar | src/main.ts:133 | definition, no contract: `toUpperCase` on one ASCII character; its meaning is stated by the contract of `Capitalize` |
| Text.Capitalize | src/main.ts:132-134 | the same text up to case, with the first character not lower-case and every later character not upper-case |
| Text.CapitalizeDeterminedByContract | src/main.ts:132-134 | those three properties determine the result of `capitalize` uniquely |
| Listing.NextClose | src/main.ts:94 | the first `)` at or after a position, or the end of the line |
| Listing.MatchAt | src/main.ts:94 | definition, no contract: where the pattern `/\(([^)]+)\)/` matches, with group 1 between the parentheses; its meaning is stated by `MatchEndUnique`, `MatchEndsAtNextClose` and `MatchFrom` |
| Listing.LeftmostMatch | src/main.ts:94 | definition, no contract: JavaScript's choice of the match that starts leftmost; its meaning is stated by `FindAddress` and `LeftmostMatchFound` |
| Listing.MatchEndUnique | src/main.ts:94 | a match of the pattern that starts at a given `(` ends at exactly one `)` |
| Listing.MatchEndsAtNextClose | src/main.ts:94 | a match starting at p ends at the first `)` after p + 1 |
| Listing.MatchFrom | src/main.ts:94 | the scan returns the first start position from i at which the pattern matches, and none exactly when no match starts at or after i |
| Listing.FindAddress | src/main.ts:94 | the captured address is the content of the leftmost `(`…`)` group whose content is non-empty and free of `)`; there is no address exactly when the line has no such group |
| Listing.LeftmostMatchFound | src/main.ts:94 | whenever a leftmost match exists, its group is the address returned |
| Listing.AddressShape | src/main.ts:94 | an address found is non-empty and holds no `)` |
| Listing.EmptyGroupIsSkipped | src/main.ts:94 | in `() (b)` the empty group does not match and the address is `b` |
| Listing.FirstLineWith | src/main.ts:89-91 | `find` returns the first line that contains the name; it returns none exactly when no line does |
| Listing.FirstDeviceLineFound | src/main.ts:88-92 | the first line naming the device is the one `find` returns |
| Listing.ParseLineCases | src/main.ts:94-107 | a line without a group gives UNAVAILABLE; otherwise the leftmost group is the address, and the state is CONNECTED exactly when the line contains `In-use by you`, else DISCONNECTED |
| Listing.ParseUsesFirstDeviceLine | src/main.ts:88-107 | the parse of a listing is the parse of its trimmed first line naming `Wooting 60HE+` |
| Listing.NoDeviceLineIsUnavailable | src/main.ts:88-102 | a listing in which no line names the device parses as UNAVAILABLE |
| Listing.UnavailableCases | src/main.ts:88-102 | the parse is UNAVAILABLE exactly when no line names the device or the first such line has no `(...)` group |
| Listing.IsValidListing | src/main.ts:76-77 | definition of the `tryUntil` condition, no contract: the reply starts with the banner and ends with the trailer; its use is stated by `Toggle.QueryParsesFirstValidReply` and `Toggle.QueryGivesUp` |
| Listing.DeviceLine | src/main.ts:88-92 | definition, no contract; its meaning is stated by `ParseUsesFirstDeviceLine` and `NoDeviceLineIsUnavailable` |
| Listing.ParseListing | src/main.ts:88-107 | definition, no contract; its meaning is stated by `ParseUsesFirstDeviceLine`, `UnavailableCases` and `ClaimedDeviceListing` |
| Listing.ParseLine | src/main.ts:94-107 | definition, no contract; its meaning is stated by `ParseLineCases` |
| Listing.DeviceFrom | src/main.ts:81-86 | definition, no contract: no accepted reply gives UNAVAILABLE, otherwise the parse of the reply; its use is stated by `Toggle.QueryParsesFirstValidReply` and `Toggle.QueryGivesUp` |
| Listing.TrimExampleLine | src/main.ts:92 | the example device line, indented by two spaces, trims to the line without them |
| Listing.ParseExampleLine | src/main.ts:94-107 | the example line `1.2.3.4 (Wooting 60HE+ keyboard) In-use by you` reads as CONNECTED with address `Wooting 60HE+ keyboard` |
| Listing.ThreeLineListing | src/main.ts:88-92 | a three-line reply of newline-free lines whose first line does not name the device and whose middle line does is parsed from the trimmed middle line, whatever the last line holds |
| Listing.ClaimedDeviceListing | src/main.ts:73-107 | the example listing (banner, indented device line with the in-use marker, trailer) is accepted and parses to `Connected("Wooting 60HE+ keyboard")` |
| Retry.LastCall | src/main.ts:115-121 | the number of the last call is the first call whose result satisfies the condition, or call 5 when none does; every earlier call failed |
| Retry.Calls | src/main.ts:115-121 | the operation runs at least once and at most six times |
| Retry.Retries | src/main.ts:117-121 | definition, no contract: one delay then one call per retry; its meaning is stated by `RetriesShape`, `RetriesSleepThenCall` and `RetriesAlternate` |
| Retry.RetriesAlternate | src/main.ts:117-121 | within the retries, delays and calls alternate, starting with a one-second delay |
| Retry.Outcome | src/main.ts:115-129 | definition, no contract; its meaning is stated by `OutcomeIsFirstSatisfying`, and `TryUntil` is proved to return it |
| Retry.PollTrace | src/main.ts:115-128 | definition, no contract; its meaning is stated by `PollTraceCounts`, `PollTraceToast` and `PollTraceOrder`, and `TryUntil` is proved to emit it |
| Retry.TryUntil | src/main.ts:110-130 | the loop makes exactly `Calls` calls, returns `Outcome`, and does exactly what `PollTrace` lists |
| Retry.OutcomeIsFirstSatisfying | src/main.ts:117-129 | the result is non-null exactly when one of the six calls satisfies the condition; it is then the first satisfying result and satisfies the condition; null comes only after six calls |
| Retry.RetriesShape | src/main.ts:117-121 | n retries are n one-second delays and n calls, and nothing else |
| Retry.RetriesSleepThenCall | src/main.ts:117-121 | within the retries, every delay is one second and is directly followed by a call |
| Retry.PollTraceCounts | src/main.ts:115-121 | the trace holds as many calls as `Calls` and one delay fewer |
| Retry.PollTraceToast | src/main.ts:122-128 | the trace holds the failure toast exactly when the result is null, and then as its last event |
| Retry.PollTraceOrder | src/main.ts:115-121 | the first event is a call, with no delay before it; every delay is one second and directly followed by a call; every later call directly follows a one-second delay |
| Toggle.Reply | src/main.ts:68-70 | definition, no contract: the trimmed output of a LIST call, as `runVirtualHereCommand` returns it; its use is stated by `QueryParsesFirstValidReply` and `QueryGivesUp` |
| Toggle.Replies | src/main.ts:75 | definition, no contract: the operation polled by `getDevice`, whose k-th call returns `Reply` of LIST call `base + k`; `Controller.GetDevice` is proved to poll it |
| Toggle.Query | src/main.ts:73-86 | definition of `getDevice` on the LIST calls from a given number on, no contract; its meaning is stated by `QueryParsesFirstValidReply`, `QueryGivesUp` and `QueryTraceOfFirstValid` |
| Toggle.HudMessage | src/main.ts:19 | definition, no contract; its texts are stated by `HudLabels` |
| Toggle.Reconcile | src/main.ts:14-21 | definition, no contract; its meaning is stated by `ReconcileWritesOnlyOnChange` |
| Toggle.Reconciled | src/main.ts:12-21 | definition, no contract; its meaning is stated by `ReconciledSlot` |
| Toggle.Observed | src/main.ts:12 | definition, no contract: the effect of `await getDevice()` on the invocation: its LIST calls counted and its events appended; its meaning is stated by `ReconciledSlot` and `ToggleTraceOrder` |
| Toggle.NextState | src/main.ts:27 | definition, no contract: CONNECTED goes to DISCONNECTED, anything else to CONNECTED; its use is stated by `ToggleCommandText` |
| Toggle.ToggleTitle | src/main.ts:30-31 | definition, no contract: the progress toast titles; their place in the trace is stated by `ToggleTraceOrder` |
| Toggle.ToggleCommand | src/main.ts:27-29 | definition, no contract; its texts are stated by `ToggleCommandText` |
| Toggle.Flipped | src/main.ts:27-35 | definition, no contract; its effect on the trace is stated by `ToggleTraceOrder` |
| Toggle.Invocation | src/main.ts:11-38 | definition of `run`, no contract; its meaning is stated by `InvocationInBackground`, `InvocationOfPresentDevice`, `AtMostOneToggle`, `InteractiveToggleCommand`, `SlotAfterObservingOnly`, `SlotAfterToggle`, `ToggleTraceOrder` and `BackgroundRerunIsQuiet` |
| Toggle.QueryParsesFirstValidReply | src/main.ts:73-86 | the device is parsed from the first trimmed LIST reply that starts with `VirtualHere Client IPC` and ends with `VirtualHere Client is running as a service`; polling stops right after it; no failure toast is shown |
| Toggle.QueryGivesUp | src/main.ts:74-86 | six incomplete LIST replies give UNAVAILABLE after six calls, with the failure toast last |
| Toggle.QueryTraceOfFirstValid | src/main.ts:115-117 | a complete first reply costs exactly one call and no other event |
| Toggle.ReconcileWritesOnlyOnChange | src/main.ts:14-21 | the slot is written, and the HUD (`Wooting 60HE+ <state in lower case>`) and capitalized subtitle are shown, only when the slot held a different state; the slot then holds the current state |
| Toggle.SubtitleOfUnavailable | src/main.ts:20 | the subtitle for UNAVAILABLE is `Unavailable` |
| Toggle.SubtitleOfConnected | src/main.ts:20 | the subtitle for CONNECTED is `Connected` |
| Toggle.SubtitleOfDisconnected | src/main.ts:20 | the subtitle for DISCONNECTED is `Disconnected` |
| Toggle.HudLabels | src/main.ts:19 | the HUD messages are `Wooting 60HE+ unavailable`, `connected` and `disconnected` |
| Toggle.ToggleCommandText | src/main.ts:27-29 | a connected device is sent `STOP USING,<addr>` and a disconnected one `USE,<addr>` |
| Toggle.InvocationInBackground | src/main.ts:11-23 | a background invocation observes and reconciles, and does nothing more |
| Toggle.InvocationOfPresentDevice | src/main.ts:23-37 | an interactive invocation that finds the device present toggles it and then runs once more in the background |
| Toggle.BackgroundIssuesNoCommand | src/main.ts:23 | a background invocation issues no command |
| Toggle.AtMostOneToggle | src/main.ts:23-37 | an invocation appends at most one toggle command and leaves earlier commands untouched |
| Toggle.InteractiveToggleCommand | src/main.ts:25-29 | interactively, CONNECTED issues exactly `STOP USING,<addr>`, DISCONNECTED exactly `USE,<addr>`, and UNAVAILABLE nothing |
| Toggle.TwoBackgroundRunsIssueNothing | src/main.ts:23 | two background invocations in a row issue no command |
| Toggle.ReconciledSlot | src/main.ts:12-21 | one observation leaves the slot holding the state observed, after exactly that observation's LIST calls |
| Toggle.SlotAfterObservingOnly | src/main.ts:12-23 | a background invocation, or one that finds the device unavailable, ends with the slot holding the observed state |
| Toggle.SlotAfterToggle | src/main.ts:12-37 | after a toggle the slot holds the state of the background re-check, whose LIST calls start right after those of the first observation |
| Toggle.ToggleTraceOrder | src/main.ts:23-37 | interactively, the toggle command is logged after the first observation's events, then the progress toast and the one-second delay, and only then the re-check's LIST calls |
| Toggle.BackgroundRerunIsQuiet | src/main.ts:11-23 | while the client keeps giving the same complete listing, a second background run changes nothing except one more LIST call |
| Toggle.Controller.constructor | src/main.ts:14 | a controller starts with no LIST calls made, nothing issued or shown, and the given content of the persisted slot |
| Toggle.Controller.GetDevice | src/main.ts:73-108 | the device, the number of LIST calls and the events are exactly those of `Query` on the next LIST calls |
| Toggle.Controller.RecordState | src/main.ts:14-21 | the new state is `Reconcile` of the old state |
| Toggle.Controller.Flip | src/main.ts:27-35 | the new state is `Flipped` of the old: the command is added to the command log, and the trace gets the command, then the progress toast, then the one-second settle delay |
| Toggle.Controller.Run | src/main.ts:11-38 | the new state is `Invocation` of the launch type and the old state |

## Left out

- `runShellScript` (src/main.ts:58-66) spawns a process and concatenates its stdout and stderr. This is OS I/O. The model replaces it with the oracle `env`, which gives the raw output of each LIST call.
- `runVirtualHereCommand` for the toggle commands: the binary path and the `-t` flag are not modelled, and neither is the reply, which the source ignores. The model records only the command text sent.
- The model has no feedback from a toggle command to later listings. `env` is fixed up front, indexed by LIST call number.
- Raycast APIs (`LocalStorage`, `showHUD`, `showToast`, `updateCommandMetadata`, `environment.launchType`) are foreign UI and storage calls. They become the `storage` field, the `trace` log and the `launchType` parameter. `main` (src/main.ts:7-9) only passes the launch type to `run`, so the model has no separate member for it.
- The model does not wait on real timers (`setTimeout`, src/main.ts:35, 118). Each wait is recorded as a `Sleep(1000)` event.
- async/await has no concurrency here. Every call is modelled as a sequential step.
- `ToLower` and `Capitalize` model only ASCII case mapping, not full Unicode mapping. Other characters are kept unchanged.
- Strings are sequences of Unicode scalar values, not UTF-16 code units. `charAt(0)` and `slice(1)` therefore differ from the model on text that starts with a character outside the BMP.
- The model has no general regex engine, only the single pattern of src/main.ts:94.
