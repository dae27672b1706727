# ClickSync core in Dafny

ClickSync pairs two Macs. The *controller* watches the presenter keys and
sends each slide command over TCP. The *follower* receives the commands and
presses the same key locally. This project models the protocol and decision
layer under the macOS plumbing:

- the wire messages and the line framer that turns received bytes into commands;
- the connection manager as a state machine over input events;
- the app-level policy: role gating, port-conflict recovery, and clearing the peer preference;
- the settings store;
- the decision logic of the keyboard monitor;
- the small enums: commands, statuses, roles and discovered peers.

Each module is a set of pure functions over immutable datatypes.

| file | module | models |
|---|---|---|
| `wrappers.dfy` | `Wrappers` | `Option` |
| `ascii.dfy` | `Ascii` | bytes, ASCII encoding, whitespace trimming, line-feed search, ASCII case-insensitive containment |
| `slide_command.dfy` | `SlideCommands` | `SlideCommand`: raw values, display names, key codes |
| `app_role.dfy` | `AppRoles` | `AppRole` |
| `connection_status.dfy` | `ConnectionStatuses` | `ConnectionStatus`, `statusText`, `isConnected` |
| `discovered_peer.dfy` | `DiscoveredPeers` | `NWEndpoint` shapes, `DiscoveredPeer` |
| `sync_message.dfy` | `SyncMessages` | `SyncMessage` tokens, `init?(command:)`, `commandOrNil()`, `payload` |
| `line_framer.dfy` | `LineFramer` | `handleReceivedData` and `handleLine`, with the receive loop as a method |
| `peer_snapshot.dfy` | `PeerSnapshot` | the browse-result snapshot: keep service endpoints, sort by name |
| `connection_manager.dfy` | `ConnectionManager` | `ConnectionManager` as `Step(m, e)` over events, with the invariant it keeps |
| `settings_store.dfy` | `Settings` | `SettingsStore` over a key-value map, `portValue`, decimal rendering |
| `input_monitor.dfy` | `InputMonitor` | `command(for:)`, `start`/`stop` flags, `handleEvent` decisions |
| `app_state.dfy` | `AppState` | `AppState`: start per role, status handling with port recovery, peers, command routing |

The connection manager is driven by events. Each public call is an event:
`startController`, `startFollower`, `stop` and `send`. So is each
network-framework callback:

- browse results;
- browser, listener and connection states;
- an inbound connection;
- a completed receive;
- the reconnect timer firing.

A step returns the new manager and a list of outputs, in order. The outputs
are the notifications the app receives (status, peers, connected peer,
command) and the effects on network objects (start browsing, start
listening, dial, adopt, request a receive, write, cancel).

The reconnect work item is modelled by identity: each scheduling draws a
fresh item number. The manager keeps the set of items that were neither
cancelled nor run. Firing an item that is not in this set does nothing.

## Where the code differs from the documented design

The model follows the code in each case below.

- `handleLine` calls `message.command`, but `SyncMessage` declares no such
  member. Its only conversion is `commandOrNil()`. The decoder is modelled
  through `commandOrNil()`, so `PING` and `PONG` lines dispatch nothing.
- The design resets the port-recovery counter on `listening` or `connected`.
  The code resets it on `listening` only. `startFollower` reports `listening`
  before the bind outcome is known (`StartFollowerReportsListeningFirst`).
  So in a composed trace, every restart resets the counter, and a persistent
  port conflict is retried again and again
  (`ListeningBeforeConflictRecoversAgain`). The five-recovery bound holds only
  between two `listening` reports (`RetryBound`).
- The design promises a deduplicated snapshot. The code keeps every service
  result, so two results with the same name both become peers, with the same
  `id` (`SameNameResultsBothKept`).
- The design says late callbacks from cancelled objects are ignored. The
  code has no way to tell them apart, so they act on the current state. The
  model's events carry no identity.
- The design says a reconnect timer is cancelled on a new successful
  connection. The code cancels it only in `stop` and when a new one is
  scheduled.
- A connection failure leaves both `connection` and `connectedPeerName` set.
  So the reconnect it schedules passes the selection guard only after a
  `cancelled` state clears the name (`FailedConnectionReconnectIsNoOp`,
  `ReconnectAfterCancel`).
- `stop` keeps `discoveredPeers` and `preferredPeerName`.
- An invalid port string sets `failed("Invalid port")` directly on the app
  state. That status never reaches the recovery handler (`InvalidPortReported`).

## Model

| member | source | states |
|---|---|---|
| AppRoles.Id | ClickSync/Models/AppRole.swift:8 | a role's identifier parses back to that role |
| AppRoles.IdIdentifies | ClickSync/Models/AppRole.swift:4-8 | two roles have the same identifier exactly when they are the same role |
| AppRoles.FromRawValue | ClickSync/Models/AppRole.swift:4-6 | parsing yields a role exactly when the string is that role's raw value |
| AppRoles.RoleAttributes | ClickSync/Models/AppRole.swift:4-17 | raw values are "controller"/"follower"; display names are "Controller"/"Follower" |
| AppRoles.RawValueRoundTrip | ClickSync/Models/AppRole.swift:4-6 | parsing a role's raw value gives the role back |
| AppRoles.ExactlyTwoRoles | ClickSync/Models/AppRole.swift:4-6 | the case list holds every role, and exactly two distinct ones |
| ConnectionStatuses.StatusText | ClickSync/Models/ConnectionStatus.swift:11-24 | the text is never empty; a failure's text is "Error: " then the message; it starts with 'E' exactly for failures |
| ConnectionStatuses.NullaryStatusTexts | ClickSync/Models/ConnectionStatus.swift:13-20 | the four fixed statuses have the texts "Disconnected", "Connecting", "Listening", "Connected" |
| ConnectionStatuses.IsConnectedExactly | ClickSync/Models/ConnectionStatus.swift:26-33 | `isConnected` holds exactly for `connected` |
| ConnectionStatuses.StatusTextInjective | ClickSync/Models/ConnectionStatus.swift:11-24 | equal texts come only from equal statuses |
| ConnectionStatuses.FailedEquality | ClickSync/Models/ConnectionStatus.swift:4-9 | two failures are equal exactly when their messages are; a failure equals no other case |
| SlideCommands.FromRawValue | ClickSync/Models/SlideCommand.swift:4-6 | parsing yields a command exactly when the string is that command's raw value |
| SlideCommands.KeyCode | ClickSync/Models/SlideCommand.swift:17-24 | every key code fits in 16 bits |
| SlideCommands.CommandAttributes | ClickSync/Models/SlideCommand.swift:4-24 | raw values "next"/"previous", display names "Next Slide"/"Previous Slide", key codes 124/123 |
| SlideCommands.RawValueRoundTrip | ClickSync/Models/SlideCommand.swift:4-6 | parsing a command's raw value gives the command back |
| SlideCommands.KeyCodeInjective | ClickSync/Models/SlideCommand.swift:17-24 | two commands have the same key code exactly when they are the same command |
| SlideCommands.AllCommandsComplete | ClickSync/Models/SlideCommand.swift:4-6 | the case list holds every command, and there are two |
| DiscoveredPeers.MakePeer | ClickSync/Networking/DiscoveredPeer.swift:10-14 | the initialiser stores the name as both `id` and `name`, and keeps the endpoint unchanged |
| DiscoveredPeers.SameNameSameId | ClickSync/Networking/DiscoveredPeer.swift:5-13 | peers with the same name share an id whatever their endpoints; they are equal exactly when the endpoints are |
| SyncMessages.TokensAreTokenText | ClickSync/Networking/SyncMessage.swift:4-8 | every token is four upper-case ASCII letters, so no token holds a line feed or whitespace |
| SyncMessages.FromRawValue | ClickSync/Networking/SyncMessage.swift:4-8 | parsing yields a message exactly when the string is that message's token |
| SyncMessages.FromCommand | ClickSync/Networking/SyncMessage.swift:10-17 | every command converts to a message, and never to `PING` or `PONG` |
| SyncMessages.CommandOrNil | ClickSync/Networking/SyncMessage.swift:19-28 | a message carries no command exactly when it is `PING` or `PONG` |
| SyncMessages.TokenBytesEncodeRawValue | ClickSync/Networking/SyncMessage.swift:30-32 | the token bytes are the UTF-8 encoding of the token text |
| SyncMessages.TokenBytesInjective | ClickSync/Networking/SyncMessage.swift:4-8 | different messages have different token bytes |
| SyncMessages.Payload | ClickSync/Networking/SyncMessage.swift:30-32 | the payload is the token bytes followed by exactly one line feed, with no line feed before it |
| SyncMessages.CommandRoundTrip | ClickSync/Networking/SyncMessage.swift:10-28 | converting a command to a message and back gives the command |
| SyncMessages.RawValueRoundTrip | ClickSync/Networking/SyncMessage.swift:4-8 | parsing a message's token gives the message back |
| SyncMessages.RawValuesDistinct | ClickSync/Networking/SyncMessage.swift:4-8 | tokens are pairwise distinct |
| SyncMessages.ReservedTokensAreInert | ClickSync/Networking/SyncMessage.swift:25-26 | "PING" and "PONG" parse as messages but carry no command |
| Ascii.EncodeAscii | ClickSync/Networking/SyncMessage.swift:31 | ASCII text encodes to UTF-8 one byte per character, each byte the character's code |
| Ascii.DecodeEncodeAscii | ClickSync/Networking/ConnectionManager.swift:148 | decoding the encoding of ASCII text gives the text back |
| Ascii.EncodeDecodeAscii | ClickSync/Networking/ConnectionManager.swift:148 | encoding the decoding of ASCII bytes gives the bytes back |
| Ascii.IndexOf | ClickSync/Networking/ConnectionManager.swift:145 | the line-feed search returns -1 exactly when there is none, otherwise the first position |
| Ascii.TrimStartSpec | ClickSync/Networking/ConnectionManager.swift:149 | leading trimming removes exactly the longest whitespace prefix |
| Ascii.TrimEndSpec | ClickSync/Networking/ConnectionManager.swift:149 | trailing trimming removes exactly the longest whitespace suffix |
| Ascii.TrimNoWhitespaceEdges | ClickSync/Networking/ConnectionManager.swift:149 | a line with no whitespace at either end is left unchanged |
| Ascii.TrimIgnoresPadding | ClickSync/Networking/ConnectionManager.swift:149 | whitespace padding on either side does not change what a line trims to |
| Ascii.ContainsIgnoringCase | ClickSync/AppState.swift:151 | the test holds exactly when the needle occurs at some position, comparing letters without case |
| LineFramer.TokenMatch | ClickSync/Networking/ConnectionManager.swift:148-155 | ASCII bytes equal a token's bytes exactly when their decoded text equals the token |
| LineFramer.MessageOfLineIsParse | ClickSync/Networking/ConnectionManager.swift:148-155 | for a line whose trimmed bytes are ASCII, the message found is `SyncMessage(rawValue:)` of the decoded trimmed text |
| LineFramer.LineLookup | ClickSync/Networking/ConnectionManager.swift:148-156 | a line is recognised exactly when its trimmed bytes are a token; it carries a command exactly when that token is `NEXT` or `PREV` |
| LineFramer.SplitLines | ClickSync/Networking/ConnectionManager.swift:145-147 | the cut lines hold no line feed; rejoined with their delimiters and followed by the remainder, they give back the buffer |
| LineFramer.SplitJoinedLines | ClickSync/Networking/ConnectionManager.swift:145-147 | splitting delimited lines plus an unterminated tail gives back exactly those lines and that tail |
| LineFramer.HandleReceivedData | ClickSync/Networking/ConnectionManager.swift:143-151 | afterwards the buffer holds no line feed and is the suffix of old buffer plus chunk after its last line feed |
| LineFramer.ChunkingInvariance | ClickSync/Networking/ConnectionManager.swift:143-151 | any split of a byte stream into chunks dispatches the same commands, in order, and leaves the same buffer as the whole stream in one chunk |
| LineFramer.PendingAppend | ClickSync/Networking/ConnectionManager.swift:145-151 | cutting lines from `x + y` is cutting them from `x`, then from its remainder followed by `y` |
| LineFramer.HandleAppend | ClickSync/Networking/ConnectionManager.swift:143-151 | delivering two chunks one after the other equals delivering their concatenation |
| LineFramer.ReceiveStep | ClickSync/Networking/ConnectionManager.swift:145-150 | one pass of the loop dispatches the first line's command; the rest is the pending work of the remainder |
| LineFramer.ReceiveData | ClickSync/Networking/ConnectionManager.swift:143-152 | the receive loop as written dispatches exactly the framer's commands and leaves exactly its buffer |
| LineFramer.TokenLineCommand | ClickSync/Networking/ConnectionManager.swift:154-156 | the token line of a command decodes to that command |
| LineFramer.EncodeAllRoundTrip | ClickSync/Networking/ConnectionManager.swift:143-157 | the concatenated payloads of any command sequence, fed into an empty buffer, dispatch exactly that sequence and leave the buffer empty |
| LineFramer.PayloadRoundTrip | ClickSync/Networking/ConnectionManager.swift:143-157 | one command's payload into an empty buffer dispatches exactly that command and leaves the buffer empty |
| LineFramer.UnknownLineIsDropped | ClickSync/Networking/ConnectionManager.swift:146-155 | a line that carries no command dispatches nothing but is still removed, with its delimiter |
| LineFramer.TwoPayloads | ClickSync/Networking/ConnectionManager.swift:143-157 | two payloads back to back dispatch their two commands in order |
| LineFramer.ExampleTwoLinesOneChunk | ClickSync/Networking/ConnectionManager.swift:143-157 | "NEXT\nPREV\n" in one chunk dispatches next, then previous |
| LineFramer.ExampleWholeLine | ClickSync/Networking/ConnectionManager.swift:143-157 | "NEXT\n" dispatches next and leaves nothing buffered |
| LineFramer.ExamplePartialLine | ClickSync/Networking/ConnectionManager.swift:143-151 | "PR" without a delimiter dispatches nothing and stays buffered |
| LineFramer.ExampleLineCompleted | ClickSync/Networking/ConnectionManager.swift:143-157 | "EV\n" after a buffered "PR" dispatches previous and empties the buffer |
| LineFramer.ExampleThreeChunks | ClickSync/Networking/ConnectionManager.swift:143-157 | "NEXT\n", "PR", "EV\n" dispatch next, nothing, previous, and leave nothing buffered |
| LineFramer.ExampleUnknownToken | ClickSync/Networking/ConnectionManager.swift:146-155 | "FOO\n" dispatches nothing and is consumed entirely |
| PeerSnapshot.NameLessIrreflexive | ClickSync/Networking/ConnectionManager.swift:204 | no name sorts before itself |
| PeerSnapshot.NameLessTransitive | ClickSync/Networking/ConnectionManager.swift:204 | the name order is transitive |
| PeerSnapshot.NameLessTotal | ClickSync/Networking/ConnectionManager.swift:204 | any two distinct names are ordered one way or the other |
| PeerSnapshot.PeerOf | ClickSync/Networking/ConnectionManager.swift:196-203 | a result becomes a peer exactly when its endpoint is a service, and then with the service's name |
| PeerSnapshot.ServicePeersCount | ClickSync/Networking/ConnectionManager.swift:196-203 | the filter keeps each service result as many times as it occurs, and nothing else |
| PeerSnapshot.SortByName | ClickSync/Networking/ConnectionManager.swift:204 | the result is a permutation of the input, sorted by name |
| PeerSnapshot.Snapshot | ClickSync/Networking/ConnectionManager.swift:195-204 | the published list is sorted by name |
| PeerSnapshot.SnapshotMembers | ClickSync/Networking/ConnectionManager.swift:196-204 | a peer is in the snapshot exactly when it is the peer of a service result |
| PeerSnapshot.SnapshotNamesAreServiceNames | ClickSync/Networking/ConnectionManager.swift:198-199 | every listed peer's id and name are its service name, and its endpoint is one of the results |
| PeerSnapshot.SnapshotCounts | ClickSync/Networking/ConnectionManager.swift:196-204 | each service result appears as many times as it occurs; nothing is deduplicated |
| PeerSnapshot.SnapshotOrderIndependent | ClickSync/Networking/ConnectionManager.swift:195-204 | with distinct service names, the order of the results does not change the snapshot |
| PeerSnapshot.SameNameResultsBothKept | ClickSync/Networking/ConnectionManager.swift:196-204 | two different services with the same name give two different peers with the same id |
| ConnectionManager.InitialValid | ClickSync/Networking/ConnectionManager.swift:12-19 | the fresh manager satisfies the invariant |
| ConnectionManager.AtMostOnePendingReconnect | ClickSync/Networking/ConnectionManager.swift:168-175 | under the invariant at most one reconnect item is pending, and it is the one the manager holds |
| ConnectionManager.Cancels | ClickSync/Networking/ConnectionManager.swift:39-46 | stop cancels exactly the listener, browser and connection that exist, and issues nothing else |
| ConnectionManager.StopManager | ClickSync/Networking/ConnectionManager.swift:38-51 | stop cancels the pending reconnect and clears listener, browser, connection, peer name and buffer; it publishes no peer, an empty list and `disconnected`; it keeps the peer list and preference |
| ConnectionManager.ScheduleReconnect | ClickSync/Networking/ConnectionManager.swift:168-175 | scheduling cancels the previous item and leaves a single fresh item pending; nothing else changes |
| ConnectionManager.FindPreferred | ClickSync/Networking/ConnectionManager.swift:224 | the search finds the first peer with the preferred name, or reports that none has it |
| ConnectionManager.ChosenPeer | ClickSync/Networking/ConnectionManager.swift:224-225 | the chosen peer is listed; it has the preferred name when some peer does, and otherwise is the first peer |
| ConnectionManager.Connect | ClickSync/Networking/ConnectionManager.swift:58-64 | connecting records the peer's name and endpoint, publishes the name, then dials |
| ConnectionManager.ConnectToPreferredPeer | ClickSync/Networking/ConnectionManager.swift:218-227 | no-op while a named connection exists; with no peers it reports `connecting`; otherwise it dials the chosen peer; it dials exactly when the guard passes and the list is non-empty |
| ConnectionManager.StartBrowser | ClickSync/Networking/ConnectionManager.swift:177-193 | the browser starts, the peer name is cleared and published, and the status becomes `connecting` |
| ConnectionManager.StartListener | ClickSync/Networking/ConnectionManager.swift:66-86 | a rejected port reports `failed("Invalid port")`; a throwing constructor reports its message; otherwise the listener starts on the port |
| ConnectionManager.HandleConnectionState | ClickSync/Networking/ConnectionManager.swift:110-127 | ready first reports `connected`, then publishes the peer name; waiting reports `connecting`; failed reports the message and schedules a reconnect, keeping connection and name; cancelled reports `disconnected` and clears the name; the rest do nothing |
| ConnectionManager.OnServiceState | ClickSync/Networking/ConnectionManager.swift:101-108 | a listener or browser failure reports its message; every other state does nothing |
| ConnectionManager.ScheduleReconnectValid | ClickSync/Networking/ConnectionManager.swift:168-175 | scheduling a reconnect keeps the invariant |
| ConnectionManager.ReceiveCompletionValid | ClickSync/Networking/ConnectionManager.swift:129-152 | a completed receive keeps the invariant |
| ConnectionManager.ConnectToPreferredPeerValid | ClickSync/Networking/ConnectionManager.swift:218-227 | peer selection keeps the invariant |
| ConnectionManager.ControlEventPreservesValid | ClickSync/Networking/ConnectionManager.swift:26-108 | start, stop, send, service states and inbound connections keep the invariant |
| ConnectionManager.StepPreservesValid | ClickSync/Networking/ConnectionManager.swift:26-227 | every event keeps the invariant: no line feed buffered, peers sorted, only the held reconnect item pending |
| ConnectionManager.RunPreservesValid | ClickSync/Networking/ConnectionManager.swift:26-227 | every event sequence keeps the invariant |
| ConnectionManager.ReachableHasOnePendingReconnect | ClickSync/Networking/ConnectionManager.swift:164-175 | from the fresh manager, whatever happens, at most one reconnect is pending |
| ConnectionManager.StopIdempotent | ClickSync/Networking/ConnectionManager.swift:38-51 | stopping twice leaves the same state as stopping once, and the second stop cancels nothing |
| ConnectionManager.StopCancelsReconnect | ClickSync/Networking/ConnectionManager.swift:38-51 | after stop no reconnect is pending, so any timer that fires later does nothing |
| ConnectionManager.StartControllerBrowses | ClickSync/Networking/ConnectionManager.swift:26-30 | `startController` stops, stores the preference and starts browsing with status `connecting` |
| ConnectionManager.StartFollowerReportsListeningFirst | ClickSync/Networking/ConnectionManager.swift:32-36 | `startFollower` reports `listening` right after the stop outputs, before the listener outcome is known |
| ConnectionManager.SendWithoutConnectionIsNoOp | ClickSync/Networking/ConnectionManager.swift:159-162 | with no connection, `send` changes nothing and outputs nothing |
| ConnectionManager.SendWritesPayload | ClickSync/Networking/ConnectionManager.swift:53-56 | with a connection, `send` writes one chunk, which the receiving framer decodes to exactly the command sent |
| ConnectionManager.BrowseResultsPublishSnapshot | ClickSync/Networking/ConnectionManager.swift:195-207 | browse results store and first publish the snapshot; a dial follows exactly when the guard passes and the snapshot is non-empty |
| ConnectionManager.NoRedialWhileConnected | ClickSync/Networking/ConnectionManager.swift:218-219 | with a named connection, new browse results only publish the snapshot |
| ConnectionManager.SelectionPrefersNamedPeer | ClickSync/Networking/ConnectionManager.swift:224-226 | when a listed peer has the preferred name, the dial goes to a peer with that name |
| ConnectionManager.SelectionFallsBackToFirst | ClickSync/Networking/ConnectionManager.swift:224-226 | when no listed peer has the preferred name (including no preference, or the app's empty name), the dial goes to the first peer |
| ConnectionManager.InboundReplacesConnection | ClickSync/Networking/ConnectionManager.swift:88-93 | an inbound connection cancels the current one, if any, and is adopted |
| ConnectionManager.FailedConnectionReconnectIsNoOp | ClickSync/Networking/ConnectionManager.swift:118-120 | after a failure of a named connection, the scheduled reconnect fires and does nothing |
| ConnectionManager.ReconnectAfterCancel | ClickSync/Networking/ConnectionManager.swift:121-123 | a failure followed by `cancelled` clears the name, so the scheduled reconnect dials the chosen peer |
| ConnectionManager.DeadTimerIsNoOp | ClickSync/Networking/ConnectionManager.swift:168-175 | a cancelled or already-run item does nothing when it fires |
| ConnectionManager.RescheduleCancelsPrevious | ClickSync/Networking/ConnectionManager.swift:168-175 | rescheduling cancels the previous item; only the new one is pending |
| ConnectionManager.ReceiveOne | ClickSync/Networking/ConnectionManager.swift:129-141 | a received chunk dispatches the framer's commands and keeps its remainder; nothing else changes |
| ConnectionManager.ReceiveContinues | ClickSync/Networking/ConnectionManager.swift:130-139 | a receive that neither ends nor fails dispatches the commands, then asks for the next chunk |
| ConnectionManager.ReceiveChunksFeed | ClickSync/Networking/ConnectionManager.swift:129-152 | a run of receives dispatches what the framer dispatches chunk by chunk |
| ConnectionManager.ReceiveChunks | ClickSync/Networking/ConnectionManager.swift:129-152 | a run of receives dispatches the commands of the concatenated bytes and leaves their remainder |
| ConnectionManager.ReceiveEndSchedulesReconnect | ClickSync/Networking/ConnectionManager.swift:134-137 | end of stream or an error still dispatches the data's commands, then cancels the connection and schedules a reconnect |
| ConnectionManager.ReceiveEndOutputs | ClickSync/Networking/ConnectionManager.swift:131-137 | the outputs of an ending receive are the commands followed by one cancellation |
| Settings.KeysDistinct | ClickSync/Services/SettingsStore.swift:5-11 | the five keys are pairwise distinct |
| Settings.StringFor | ClickSync/Services/SettingsStore.swift:35-40 | a string read succeeds exactly when the key holds text, and returns that text |
| Settings.BoolFor | ClickSync/Services/SettingsStore.swift:39 | a flag read is true exactly when the key holds `true` |
| Settings.Load | ClickSync/Services/SettingsStore.swift:33-41 | a stored role is used when it parses, otherwise `controller`; host and peer name default to ""; port to "54545"; logging to off |
| Settings.FreshDefaults | ClickSync/Services/SettingsStore.swift:36-40 | with nothing stored, the settings are controller, "", "54545", off, "" |
| Settings.SetRole | ClickSync/Services/SettingsStore.swift:13-15 | setting the role writes its raw value under the role key only |
| Settings.SetFollowerHost | ClickSync/Services/SettingsStore.swift:17-19 | setting the host writes it under the host key only |
| Settings.SetPortString | ClickSync/Services/SettingsStore.swift:21-23 | setting the port string writes it under the port key only |
| Settings.SetDebugLogging | ClickSync/Services/SettingsStore.swift:25-27 | setting logging writes the flag under its key only |
| Settings.SetSelectedPeerName | ClickSync/Services/SettingsStore.swift:29-31 | setting the peer name writes it under its key only |
| Settings.LoadInSync | ClickSync/Services/SettingsStore.swift:33-41 | freshly loaded settings read back from the store as they are |
| Settings.OtherKeysUnchanged | ClickSync/Services/SettingsStore.swift:13-31 | writing one key leaves every other key's reading unchanged |
| Settings.SetRoleInSync | ClickSync/Services/SettingsStore.swift:13-15 | after setting the role, a relaunch reads back exactly the settings in memory |
| Settings.SetFollowerHostInSync | ClickSync/Services/SettingsStore.swift:17-19 | after setting the host, a relaunch reads back exactly the settings in memory |
| Settings.SetPortStringInSync | ClickSync/Services/SettingsStore.swift:21-23 | after setting the port string, a relaunch reads back exactly the settings in memory |
| Settings.SetDebugLoggingInSync | ClickSync/Services/SettingsStore.swift:25-27 | after setting logging, a relaunch reads back exactly the settings in memory |
| Settings.SetSelectedPeerNameInSync | ClickSync/Services/SettingsStore.swift:29-31 | after setting the peer name, a relaunch reads back exactly the settings in memory |
| Settings.PortValue | ClickSync/Services/SettingsStore.swift:43-45 | a parsed port always fits in 16 bits |
| Settings.Decimal | ClickSync/AppState.swift:166 | the rendering is a non-empty digit string with no leading zero whose value is the number |
| Settings.PortRoundTrip | ClickSync/Services/SettingsStore.swift:43-45 | every 16-bit port, rendered in decimal, parses back to itself |
| Settings.ParseDecimalRoundTrip | ClickSync/Services/SettingsStore.swift:43-45 | an unsigned canonical port string that parses renders back to itself |
| Settings.DecimalCanonical | ClickSync/AppState.swift:166 | a digit string without a leading zero is the rendering of its value |
| Settings.DefaultPortParses | ClickSync/Services/SettingsStore.swift:38 | the default port string parses to 54545 |
| Settings.PortRejectsMalformed | ClickSync/Services/SettingsStore.swift:43-45 | an empty string, a bare sign and a non-digit are refused |
| Settings.NegativeRefused | ClickSync/Services/SettingsStore.swift:43-45 | every negative value is refused: `-` followed by digits of a non-zero value never parses |
| Settings.WideRefused | ClickSync/Services/SettingsStore.swift:43-45 | every value of 65536 or more is refused, written with or without a `+` |
| Settings.PortRejectsOutOfRange | ClickSync/Services/SettingsStore.swift:43-45 | the examples 65536 and -1 are refused |
| Settings.PortAcceptsSigns | ClickSync/Services/SettingsStore.swift:43-45 | "-0" parses to 0 and "+65535" to 65535 |
| InputMonitor.CommandFor | ClickSync/Input/InputMonitor.swift:74-83 | key codes 124 and 49 give next, 123 gives previous |
| InputMonitor.OnlyPresenterKeys | ClickSync/Input/InputMonitor.swift:74-83 | every other key code gives no command |
| InputMonitor.CommandForKeyCode | ClickSync/Input/InputMonitor.swift:74-83 | the key code of a command maps back to that command |
| InputMonitor.Start | ClickSync/Input/InputMonitor.swift:12-21 | when already started it reports success and changes nothing; otherwise it succeeds exactly when the tap is created, and then installs and enables it |
| InputMonitor.Stop | ClickSync/Input/InputMonitor.swift:23-31 | afterwards no tap is installed; when none was, nothing changes |
| InputMonitor.StartStopIdempotent | ClickSync/Input/InputMonitor.swift:12-31 | a second start after a successful one changes nothing; stopping twice equals stopping once; start then stop returns to idle |
| InputMonitor.HandleEvent | ClickSync/Input/InputMonitor.swift:49-72 | a command is emitted exactly for a non-repeat key-down of a presenter key; a tap-disabled event re-enables the tap; nothing else changes the monitor |
| InputMonitor.HeldKeyYieldsOneCommand | ClickSync/Input/InputMonitor.swift:60-66 | autorepeats emit nothing; only the first press emits |
| AppState.NextPort | ClickSync/AppState.swift:163-165 | one above the current port, 65535 wraps to 54545, an unparsable setting counts as 54545 |
| AppState.NextPortString | ClickSync/AppState.swift:163-167 | the next port string parses back to the next port |
| AppState.StartController | ClickSync/AppState.swift:89-96 | the controller starts the key monitor, asks for accessibility, and starts the manager with the selected peer name |
| AppState.StartFollower | ClickSync/AppState.swift:98-106 | the follower stops the monitor; with an unparsable port it sets `failed("Invalid port")` and never starts the manager; otherwise it starts it on the port |
| AppState.ApplySettings | ClickSync/AppState.swift:41-50 | applying settings starts the role the settings name |
| AppState.HandleLocal | ClickSync/AppState.swift:108-111 | a local key is sent exactly when the role is controller and a presentation is active |
| AppState.HandleRemote | ClickSync/AppState.swift:113-116 | a remote command is pressed exactly when the role is follower and a presentation is active |
| AppState.TriggerTest | ClickSync/AppState.swift:52-59 | a test command is sent on the controller and pressed on the follower, and only while a presentation is active |
| AppState.HandlePeersUpdate | ClickSync/AppState.swift:118-123 | the peer list is replaced wholesale; the selected name is cleared exactly when no peer carries it |
| AppState.RecoveryExactly | ClickSync/AppState.swift:147-155 | a failure is always stored; it triggers recovery exactly for a follower whose message mentions "address already in use" in any case, while fewer than five recoveries ran; a recovery counts one, moves to the next port and restarts the follower |
| AppState.ListeningResetsCounter | ClickSync/AppState.swift:156-160 | `listening` resets the counter; every other non-failure status only is stored |
| AppState.ControllerNeverRecovers | ClickSync/AppState.swift:150 | a controller never triggers recovery |
| AppState.PortConflictMessageRecognised | ClickSync/AppState.swift:151 | "Address already in use" is recognised; "Connection refused" is not |
| AppState.StatusStep | ClickSync/AppState.swift:147-160 | each status other than `listening` restarts the follower at most once, and exactly once per count added |
| AppState.RetryBound | ClickSync/AppState.swift:152-155 | with no `listening` in between, a status sequence restarts the follower at most five times in all |
| AppState.RecoveryRotatesPort | ClickSync/AppState.swift:163-167 | recovery from port p below 65535 restarts on p + 1 |
| AppState.ConflictStep | ClickSync/AppState.swift:148-155 | one conflict on a follower on port p either recovers (counter +1, port p + 1, one restart there) or, once five recoveries ran, restarts nothing and leaves the settings alone |
| AppState.ExhaustedConflictsInert | ClickSync/AppState.swift:152 | once five recoveries ran, any run of further failures, whatever their message, restarts nothing and leaves the counter and the settings unchanged |
| AppState.ConflictRunRotatesPort | ClickSync/AppState.swift:147-167 | a run of conflicts the counter still allows, from port p below the top, restarts on p + 1, p + 2, … in turn, and the counter grows by the run's length |
| AppState.FiveRestartsFromBasePort | ClickSync/AppState.swift:163-167 | five recoveries from the base port restart on 54546, 54547, 54548, 54549, 54550 |
| AppState.FiveConflictsFromBasePort | ClickSync/AppState.swift:147-167 | from the base port with a fresh counter, five conflicts restart on 54546 to 54550, and any further conflicts restart nothing |
| AppState.RecoveryWrapsPort | ClickSync/AppState.swift:165 | recovery from port 65535 restarts on 54545 |
| AppState.ListeningBeforeConflictRecoversAgain | ClickSync/AppState.swift:156-157 | after `listening`, a port conflict recovers again with the counter restarted at one |
| AppState.InvalidPortReported | ClickSync/AppState.swift:101-104 | an invalid port is reported as `failed("Invalid port")`, with no restart and no change to the counter |
| AppState.PeersUpdateIdempotent | ClickSync/AppState.swift:118-123 | applying the same peer update twice equals applying it once |
| AppState.SelectionStaysListed | ClickSync/AppState.swift:120-122 | after an update, the selected name is empty or carried by a listed peer |
| AppState.RemoteCommandsExecuted | ClickSync/AppState.swift:75-77 | a follower presses a received command exactly when a presentation is active |
| AppState.ControllerIgnoresRemote | ClickSync/AppState.swift:113-116 | a controller ignores received commands |
| AppState.LocalKeySent | ClickSync/AppState.swift:84-86 | a presenter key on the controller is sent to the peer as its command |

## Left out

- Network I/O. The listener, browser and connection objects, Bonjour advertising and the bytes on the wire are outside the model. Their callbacks are input events. The manager's effects on them are outputs.
- Concurrency and time. The model has no dispatch queues, main-queue hops or weak references. Callbacks form one ordered event sequence. The 1.0 s reconnect delay is an event that fires the scheduled item. `ConnectedPeerChanged` carries the name current when the step produces it, while `notifyConnectedPeer` (ConnectionManager.swift:235-238) reads `connectedPeerName` only when its main-queue block runs; a queue event in between, such as a `cancelled` state followed by a reconnect that dials, changes the name the app receives.
- `error.localizedDescription` is an opaque string carried by the failure events.
- `NWEndpoint.Port(rawValue:)` and the listener constructor belong to the network library. Their outcome is an input (`ListenerCreation`).
- The Bonjour service type and name, and the host's name used as the service name, play no part in any decision.
- UTF-8 and Unicode. Lines are decoded as ASCII and trimmed of ASCII whitespace only (TAB, LF, VT, FF, CR, SPACE). The code decodes UTF-8 and trims all of Unicode's `whitespacesAndNewlines`. A line that is a token padded with non-ASCII whitespace, such as U+0085, U+00A0 or U+2028 (for example the bytes C2 A0 4E 45 58 54 0A), is dispatched by the code and dropped by the model. A line that starts with the UTF-8 byte-order mark (for example EF BB BF 4E 45 58 54 0A) differs too if `String(data:encoding:)` removes a leading mark, as NSString's UTF-8 decoding does: the code then dispatches the token and the model drops the line. U+FEFF is not whitespace, so where the mark is kept the code dispatches nothing either. Every other line with a byte of 0x80 or above dispatches nothing in both: after trimming it is either invalid UTF-8 or text that is not a token. `localizedCaseInsensitiveContains` is modelled as ASCII case folding.
- Names are compared character by character, by scalar value, without Unicode normalisation. Swift's `String` `==` and `<` use canonical equivalence, so a precomposed "é" equals "e" followed by U+0301 in the code but not in the model. This affects PeerSnapshot.NameLess (the sort at ConnectionManager.swift:204), ConnectionManager.FindPreferred (the preferred-name match at line 224) and AppState.HasPeerNamed (the selection check at AppState.swift:120).
- PeerSnapshot.SortByName: the result is an insertion sort, which is stable. Swift's `sorted` does not promise stability, so the order of peers with equal names is the model's choice.
- InputMonitor.HandleEvent: the returned event is not modelled. Every path of `handleEvent` passes the event through unchanged, so the model only decides the command and the tap's state.
- The run-loop source, the `CGEvent` tap calls and the tap's creation. Whether the tap is created is an input to `Start`.
- The presentation-app check is an input (`presentationActive`).
- Accessibility prompting, key posting, logging, launch at login, update checks, the app lifecycle and the SwiftUI views. These appear as the actions `RequestAccessibility` and `PressKey`, or are left out.
- `UserDefaults` coercions, such as a number read back as a string. The store is a map from keys to text or flags.
- The follower host and the logging flag are stored and persisted, but no decision in the model depends on them.
