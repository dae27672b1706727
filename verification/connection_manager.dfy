/**
 The connection manager as a state machine. Every network-framework callback
 and every public call becomes an `Event`; `Step` returns the next state and,
 in order, the notifications and network effects the call produces.
 Notifications are delivered to the app in the order they are produced.
 */
module ConnectionManager {
  import opened Wrappers
  import opened Ascii
  import opened SlideCommands
  import opened ConnectionStatuses
  import opened DiscoveredPeers
  import opened PeerSnapshot
  import SyncMessages
  import LineFramer

  /** A port number as the follower passes it (UInt16). */
  type Port = p: int | 0 <= p < 0x1_0000

  /** The largest chunk one receive call asks for. */
  const MaxReceiveLength := 512

  /**
   How constructing the listener turns out; decided by the network library,
   so it is an input: the port may be rejected, the constructor may throw.
   */
  datatype ListenerCreation = PortRejected | Threw(message: string) | Created

  /** States reported for a listener or a browser. */
  datatype ServiceState = ServiceSetup | ServiceWaiting(message: string) | ServiceReady | ServiceFailed(message: string) | ServiceCancelled

  /** States reported for a connection. */
  datatype ConnectionState = Setup | Preparing | Waiting(message: string) | Ready | Failed(message: string) | Cancelled

  datatype Event =
    | StartController(preferredPeerName: Option<string>)
    | StartFollower(port: Port, creation: ListenerCreation)
    | Stop
    | Send(command: SlideCommand)
    | BrowseResultsChanged(results: seq<Endpoint>)
    | BrowserStateChanged(browserState: ServiceState)
    | ListenerStateChanged(listenerState: ServiceState)
    | InboundConnection(remote: Endpoint)
    | ConnectionStateChanged(connectionState: ConnectionState)
    | ReceiveCompleted(data: seq<Byte>, isComplete: bool, hasError: bool)
    | ReconnectTimerFired(item: nat)

  datatype Output =
    // notifications to the app
    | StatusChanged(status: ConnectionStatus)
    | PeersChanged(peers: seq<DiscoveredPeer>)
    | ConnectedPeerChanged(name: Option<string>)
    | CommandReceived(command: SlideCommand)
    // effects on network objects
    | StartBrowsing
    | StartListening(port: Port)
    | Dial(endpoint: Endpoint)
    | AdoptInbound(endpoint: Endpoint)
    | RequestReceive(maxLength: int)
    | Write(bytes: seq<Byte>)
    | CancelListener
    | CancelBrowser
    | CancelConnection

  /**
   The manager's fields. `connection` holds the endpoint of the current
   connection object; cancelling a connection does not clear it. Reconnect
   work items are numbered: `reconnectItem` is the one the manager refers to,
   `liveTimers` those scheduled and neither cancelled nor run.
   */
  datatype Manager = Manager(
    listener: Option<Port>,
    browser: bool,
    connection: Option<Endpoint>,
    connectedPeerName: Option<string>,
    preferredPeerName: Option<string>,
    discoveredPeers: seq<DiscoveredPeer>,
    receiveBuffer: seq<Byte>,
    reconnectItem: Option<nat>,
    liveTimers: set<nat>,
    nextTimerId: nat,
    status: ConnectionStatus)

  datatype Step = Step(m: Manager, out: seq<Output>)

  const Initial := Manager(None, false, None, None, None, [], [], None, {}, 0, Disconnected)

  function ItemSet(item: Option<nat>): set<nat> {
    if item.Some? then {item.value} else {}
  }

  /** The invariant every reachable manager keeps. */
  predicate Valid(m: Manager) {
    && LF !in m.receiveBuffer
    && SortedByName(m.discoveredPeers)
    && m.liveTimers <= ItemSet(m.reconnectItem)
    && (forall t :: t in ItemSet(m.reconnectItem) ==> t < m.nextTimerId)
  }

  lemma InitialValid()
    ensures Valid(Initial)
  {
  }

  /** At most one reconnect work item is ever pending. */
  lemma AtMostOnePendingReconnect(m: Manager)
    requires Valid(m)
    ensures |m.liveTimers| <= 1
    ensures m.liveTimers != {} ==> m.reconnectItem.Some? && m.liveTimers == {m.reconnectItem.value}
  {
    if m.reconnectItem.Some? {
      assert m.liveTimers <= {m.reconnectItem.value};
      if m.liveTimers != {} {
        assert m.liveTimers == {m.reconnectItem.value};
      }
    }
  }

  function SetStatus(m: Manager, s: ConnectionStatus): (r: Step)
    ensures r.m == m.(status := s) && r.out == [StatusChanged(s)]
  {
    Step(m.(status := s), [StatusChanged(s)])
  }

  function SetConnectedPeerName(m: Manager, name: Option<string>): (r: Step)
    ensures r.m == m.(connectedPeerName := name) && r.out == [ConnectedPeerChanged(name)]
  {
    Step(m.(connectedPeerName := name), [ConnectedPeerChanged(name)])
  }

  predicate IsCancel(o: Output) {
    o.CancelListener? || o.CancelBrowser? || o.CancelConnection?
  }

  /** The cancellations `stop` issues: one per network object that exists. */
  function Cancels(m: Manager): (out: seq<Output>)
    ensures forall i :: 0 <= i < |out| ==> IsCancel(out[i])
    ensures (CancelConnection in out) <==> m.connection.Some?
    ensures (CancelListener in out) <==> m.listener.Some?
    ensures (CancelBrowser in out) <==> m.browser
  {
    (if m.listener.Some? then [CancelListener] else [])
    + (if m.browser then [CancelBrowser] else [])
    + (if m.connection.Some? then [CancelConnection] else [])
  }

  /**
   `stop`: cancel the pending work item, listener, browser and connection,
   clear the connected peer and the buffer, publish no peers, report
   `disconnected`. The discovered peers and the preferred name are kept.
   */
  function StopManager(m: Manager): (r: Step)
    ensures r.m.reconnectItem.None? && r.m.liveTimers == m.liveTimers - ItemSet(m.reconnectItem)
    ensures r.m.listener.None? && !r.m.browser && r.m.connection.None? && r.m.connectedPeerName.None?
    ensures r.m.receiveBuffer == [] && r.m.status == Disconnected
    ensures r.m.discoveredPeers == m.discoveredPeers && r.m.preferredPeerName == m.preferredPeerName
    ensures r.m.nextTimerId == m.nextTimerId
    ensures r.out == Cancels(m) + [ConnectedPeerChanged(None), PeersChanged([]), StatusChanged(Disconnected)]
  {
    var m' := m.(
      reconnectItem := None,
      liveTimers := m.liveTimers - ItemSet(m.reconnectItem),
      listener := None,
      browser := false,
      connection := None,
      connectedPeerName := None,
      receiveBuffer := [],
      status := Disconnected);
    Step(m', Cancels(m) + [ConnectedPeerChanged(None), PeersChanged([]), StatusChanged(Disconnected)])
  }

  /** `scheduleReconnectToDiscoveredPeer`: cancel the referenced item, schedule a fresh one. */
  function ScheduleReconnect(m: Manager): (r: Step)
    ensures r.m.reconnectItem == Some(m.nextTimerId)
    ensures r.m.liveTimers == (m.liveTimers - ItemSet(m.reconnectItem)) + {m.nextTimerId}
    ensures r.m.nextTimerId == m.nextTimerId + 1
    ensures r.m == m.(reconnectItem := r.m.reconnectItem, liveTimers := r.m.liveTimers, nextTimerId := r.m.nextTimerId)
    ensures r.out == []
  {
    var id := m.nextTimerId;
    Step(m.(reconnectItem := Some(id), liveTimers := (m.liveTimers - ItemSet(m.reconnectItem)) + {id}, nextTimerId := id + 1), [])
  }

  /** Index of the first peer whose name equals the preferred name, or -1 (always -1 when there is none). */
  function FindPreferred(peers: seq<DiscoveredPeer>, preferred: Option<string>): (r: int)
    ensures -1 <= r < |peers|
    ensures r == -1 <==> forall p :: p in peers ==> Some(p.name) != preferred
    ensures r >= 0 ==> Some(peers[r].name) == preferred && forall j :: 0 <= j < r ==> Some(peers[j].name) != preferred
  {
    if peers == [] then -1
    else if Some(peers[0].name) == preferred then 0
    else
      var k := FindPreferred(peers[1..], preferred);
      assert forall p :: p in peers[1..] ==> p in peers;
      if k == -1 then -1 else k + 1
  }

  /** Whether peer selection is allowed to dial: no connection, or no connected peer name. */
  predicate MayDial(m: Manager) {
    m.connection.None? || m.connectedPeerName.None?
  }

  /** The peer `connectToPreferredPeer` picks: the preferred one, else the first. */
  function ChosenPeer(m: Manager): (p: DiscoveredPeer)
    requires m.discoveredPeers != []
    ensures p in m.discoveredPeers
    ensures (exists q :: q in m.discoveredPeers && Some(q.name) == m.preferredPeerName) ==> Some(p.name) == m.preferredPeerName
    ensures (forall q :: q in m.discoveredPeers ==> Some(q.name) != m.preferredPeerName) ==> p == m.discoveredPeers[0]
  {
    var k := FindPreferred(m.discoveredPeers, m.preferredPeerName);
    if k >= 0 then m.discoveredPeers[k] else m.discoveredPeers[0]
  }

  /** `connect(to:name:)`: record the name, replace the connection object, dial. */
  function Connect(m: Manager, peer: DiscoveredPeer): (r: Step)
    ensures r.m == m.(connectedPeerName := Some(peer.name), connection := Some(peer.endpoint))
    ensures r.out == [ConnectedPeerChanged(Some(peer.name)), Dial(peer.endpoint)]
  {
    var s := SetConnectedPeerName(m, Some(peer.name));
    Step(s.m.(connection := Some(peer.endpoint)), s.out + [Dial(peer.endpoint)])
  }

  /** `connectToPreferredPeer`. */
  function ConnectToPreferredPeer(m: Manager): (r: Step)
    ensures !MayDial(m) ==> r == Step(m, [])
    ensures MayDial(m) && m.discoveredPeers == [] ==> r == Step(m.(status := Connecting), [StatusChanged(Connecting)])
    ensures MayDial(m) && m.discoveredPeers != [] ==>
      && r.out == [ConnectedPeerChanged(Some(ChosenPeer(m).name)), Dial(ChosenPeer(m).endpoint)]
      && r.m.connection == Some(ChosenPeer(m).endpoint)
      && r.m.connectedPeerName == Some(ChosenPeer(m).name)
    ensures r.m.discoveredPeers == m.discoveredPeers && r.m.receiveBuffer == m.receiveBuffer
    ensures r.m.liveTimers == m.liveTimers && r.m.reconnectItem == m.reconnectItem && r.m.nextTimerId == m.nextTimerId
    ensures (exists e :: Dial(e) in r.out) <==> MayDial(m) && m.discoveredPeers != []
  {
    if !MayDial(m) then Step(m, [])
    else if m.discoveredPeers == [] then SetStatus(m, Connecting)
    else Connect(m, ChosenPeer(m))
  }

  /** `startBrowser`. */
  function StartBrowser(m: Manager): (r: Step)
    ensures r.m == m.(browser := true, connectedPeerName := None, status := Connecting)
    ensures r.out == [ConnectedPeerChanged(None), StartBrowsing, StatusChanged(Connecting)]
  {
    var s := SetConnectedPeerName(m.(browser := true), None);
    var t := SetStatus(s.m, Connecting);
    Step(t.m, s.out + [StartBrowsing] + t.out)
  }

  /** `startListener(on:)`. */
  function StartListener(m: Manager, port: Port, creation: ListenerCreation): (r: Step)
    ensures creation.PortRejected? ==> r == SetStatus(m, ConnectionStatus.Failed("Invalid port"))
    ensures creation.Threw? ==> r == SetStatus(m, ConnectionStatus.Failed(creation.message))
    ensures creation.Created? ==> r == Step(m.(listener := Some(port)), [StartListening(port)])
  {
    match creation
    case PortRejected => SetStatus(m, ConnectionStatus.Failed("Invalid port"))
    case Threw(msg) => SetStatus(m, ConnectionStatus.Failed(msg))
    case Created => Step(m.(listener := Some(port)), [StartListening(port)])
  }

  /** `receiveNext`: a receive is issued only on an existing connection. */
  function ReceiveNext(m: Manager): seq<Output> {
    if m.connection.Some? then [RequestReceive(MaxReceiveLength)] else []
  }

  function Commands(cs: seq<SlideCommand>): (out: seq<Output>)
    ensures |out| == |cs|
    ensures forall i :: 0 <= i < |cs| ==> out[i] == CommandReceived(cs[i])
  {
    if cs == [] then [] else [CommandReceived(cs[0])] + Commands(cs[1..])
  }

  /** The receive completion handler of `receiveNext`. */
  function ReceiveCompletion(m: Manager, data: seq<Byte>, isComplete: bool, hasError: bool): (r: Step)
  {
    var d := if data != [] then LineFramer.HandleReceivedData(m.receiveBuffer, data) else LineFramer.Drained([], m.receiveBuffer);
    var m1 := m.(receiveBuffer := d.rest);
    var out1 := Commands(d.commands);
    if isComplete || hasError then
      var s := ScheduleReconnect(m1);
      Step(s.m, out1 + (if m1.connection.Some? then [CancelConnection] else []))
    else
      Step(m1, out1 + ReceiveNext(m1))
  }

  /** `handleConnectionState`. */
  function HandleConnectionState(m: Manager, state: ConnectionState): (r: Step)
    ensures state.Ready? ==> r.m.status == Connected && |r.out| >= 2 && r.out[..2] == [StatusChanged(Connected), ConnectedPeerChanged(m.connectedPeerName)]
    ensures state.Waiting? ==> r == SetStatus(m, Connecting)
    ensures state.Failed? ==> r.m.status == ConnectionStatus.Failed(state.message) && r.out == [StatusChanged(ConnectionStatus.Failed(state.message))]
    ensures state.Failed? ==> r.m.connection == m.connection && r.m.connectedPeerName == m.connectedPeerName
    ensures state.Failed? ==> r.m.reconnectItem == Some(m.nextTimerId) && m.nextTimerId in r.m.liveTimers
    ensures state.Cancelled? ==> r.m == m.(status := Disconnected, connectedPeerName := None)
    ensures state.Cancelled? ==> r.out == [StatusChanged(Disconnected), ConnectedPeerChanged(None)]
    ensures state.Setup? || state.Preparing? ==> r == Step(m, [])
    ensures r.m.connection == m.connection && r.m.receiveBuffer == m.receiveBuffer
  {
    match state
    case Ready =>
      var s := SetStatus(m, Connected);
      Step(s.m, s.out + [ConnectedPeerChanged(s.m.connectedPeerName)] + ReceiveNext(s.m))
    case Waiting(_) => SetStatus(m, Connecting)
    case Failed(msg) =>
      var s := SetStatus(m, ConnectionStatus.Failed(msg));
      var t := ScheduleReconnect(s.m);
      Step(t.m, s.out + t.out)
    case Cancelled =>
      var s := SetStatus(m, Disconnected);
      var t := SetConnectedPeerName(s.m, None);
      Step(t.m, s.out + t.out)
    case Setup => Step(m, [])
    case Preparing => Step(m, [])
  }

  /** `startController`: stop, remember the preferred peer, browse. */
  function OnStartController(m: Manager, preferred: Option<string>): Step {
    var s := StopManager(m);
    var t := StartBrowser(s.m.(preferredPeerName := preferred));
    Step(t.m, s.out + t.out)
  }

  /** `startFollower`: stop, report `listening`, then create and start the listener. */
  function OnStartFollower(m: Manager, port: Port, creation: ListenerCreation): Step {
    var s := StopManager(m);
    var t := SetStatus(s.m, Listening);
    var u := StartListener(t.m, port, creation);
    Step(u.m, s.out + t.out + u.out)
  }

  /** `send(command:)`: write the command's payload on the current connection, if any. */
  function OnSend(m: Manager, c: SlideCommand): Step {
    match SyncMessages.FromCommand(c)
    case None => Step(m, [])
    case Some(msg) => Step(m, if m.connection.Some? then [Write(SyncMessages.Payload(msg))] else [])
  }

  /** `handleBrowseResults`: publish the sorted snapshot, then try to connect. */
  function OnBrowseResults(m: Manager, results: seq<Endpoint>): Step {
    var snapshot := Snapshot(results);
    var s := ConnectToPreferredPeer(m.(discoveredPeers := snapshot));
    Step(s.m, [PeersChanged(snapshot)] + s.out)
  }

  /** `handleListenerState` and `handleBrowserState`: only a failure is reported. */
  function OnServiceState(m: Manager, state: ServiceState): (r: Step)
    ensures state.ServiceFailed? ==> r == SetStatus(m, ConnectionStatus.Failed(state.message))
    ensures !state.ServiceFailed? ==> r == Step(m, [])
  {
    if state.ServiceFailed? then SetStatus(m, ConnectionStatus.Failed(state.message)) else Step(m, [])
  }

  /** `accept`: replace the current connection by the incoming one. */
  function OnInbound(m: Manager, remote: Endpoint): Step {
    Step(m.(connection := Some(remote)), (if m.connection.Some? then [CancelConnection] else []) + [AdoptInbound(remote)])
  }

  /** The reconnect work item: runs peer selection unless cancelled or already run. */
  function OnReconnectTimer(m: Manager, item: nat): Step {
    if item in m.liveTimers then ConnectToPreferredPeer(m.(liveTimers := m.liveTimers - {item}))
    else Step(m, [])
  }

  /** The manager's reaction to one event. */
  function StepManager(m: Manager, e: Event): Step {
    match e
    case StartController(preferred) => OnStartController(m, preferred)
    case StartFollower(port, creation) => OnStartFollower(m, port, creation)
    case Stop => StopManager(m)
    case Send(c) => OnSend(m, c)
    case BrowseResultsChanged(results) => OnBrowseResults(m, results)
    case BrowserStateChanged(state) => OnServiceState(m, state)
    case ListenerStateChanged(state) => OnServiceState(m, state)
    case InboundConnection(remote) => OnInbound(m, remote)
    case ConnectionStateChanged(state) => HandleConnectionState(m, state)
    case ReceiveCompleted(data, isComplete, hasError) => ReceiveCompletion(m, data, isComplete, hasError)
    case ReconnectTimerFired(item) => OnReconnectTimer(m, item)
  }

  /** Runs a sequence of events, concatenating the outputs. */
  function Run(m: Manager, events: seq<Event>): Step
    decreases |events|
  {
    if events == [] then Step(m, [])
    else
      var s := StepManager(m, events[0]);
      var t := Run(s.m, events[1..]);
      Step(t.m, s.out + t.out)
  }

  // ----- the invariant -----

  lemma ScheduleReconnectValid(m: Manager)
    requires Valid(m)
    ensures Valid(ScheduleReconnect(m).m)
  {
  }

  lemma ReceiveCompletionValid(m: Manager, data: seq<Byte>, isComplete: bool, hasError: bool)
    requires Valid(m)
    ensures Valid(ReceiveCompletion(m, data, isComplete, hasError).m)
  {
  }

  lemma ConnectToPreferredPeerValid(m: Manager)
    requires Valid(m)
    ensures Valid(ConnectToPreferredPeer(m).m)
  {
  }

  /** Every event keeps the invariant: at most one live reconnect item, an LF-free buffer, sorted peers. */
  /** Events that neither schedule a reconnect nor touch the buffer keep the invariant directly. */
  lemma ControlEventPreservesValid(m: Manager, e: Event)
    requires Valid(m)
    requires e.StartController? || e.StartFollower? || e.Stop? || e.Send?
          || e.BrowserStateChanged? || e.ListenerStateChanged? || e.InboundConnection?
    ensures Valid(StepManager(m, e).m)
  {
  }

  lemma StepPreservesValid(m: Manager, e: Event)
    requires Valid(m)
    ensures Valid(StepManager(m, e).m)
  {
    match e
    case ConnectionStateChanged(state) =>
      if state.Failed? {
        ScheduleReconnectValid(m.(status := ConnectionStatus.Failed(state.message)));
      }
    case ReceiveCompleted(data, isComplete, hasError) =>
      ReceiveCompletionValid(m, data, isComplete, hasError);
    case ReconnectTimerFired(item) =>
      if item in m.liveTimers {
        ConnectToPreferredPeerValid(m.(liveTimers := m.liveTimers - {item}));
      }
    case BrowseResultsChanged(results) =>
      ConnectToPreferredPeerValid(m.(discoveredPeers := Snapshot(results)));
    case _ =>
      ControlEventPreservesValid(m, e);
  }

  lemma {:induction false} RunPreservesValid(m: Manager, events: seq<Event>)
    requires Valid(m)
    ensures Valid(Run(m, events).m)
    decreases |events|
  {
    if events != [] {
      StepPreservesValid(m, events[0]);
      RunPreservesValid(StepManager(m, events[0]).m, events[1..]);
    }
  }

  /** From the initial manager, whatever happens, at most one reconnect is pending. */
  lemma ReachableHasOnePendingReconnect(events: seq<Event>)
    ensures |Run(Initial, events).m.liveTimers| <= 1
  {
    InitialValid();
    RunPreservesValid(Initial, events);
    AtMostOnePendingReconnect(Run(Initial, events).m);
  }

  // ----- stop and start -----

  /** `stop` from any state leaves the same quiet manager as stopping twice. */
  lemma StopIdempotent(m: Manager)
    ensures StopManager(StopManager(m).m).m == StopManager(m).m
    ensures StopManager(StopManager(m).m).out == [ConnectedPeerChanged(None), PeersChanged([]), StatusChanged(Disconnected)]
  {
    var once := StopManager(m).m;
    assert Cancels(once) == [];
  }

  /** After `stop`, the work item that was pending never runs. */
  lemma StopCancelsReconnect(m: Manager)
    requires Valid(m)
    ensures StopManager(m).m.liveTimers == {}
    ensures forall item :: StepManager(StopManager(m).m, ReconnectTimerFired(item)) == Step(StopManager(m).m, [])
  {
    AtMostOnePendingReconnect(m);
  }

  /**
   `startController` stops first, remembers the preferred name and browses:
   status `connecting`, no connection, no connected peer name.
   */
  lemma StartControllerBrowses(m: Manager, preferred: Option<string>)
    ensures var r := StepManager(m, StartController(preferred));
      && r.m.browser && r.m.listener.None? && r.m.connection.None?
      && r.m.connectedPeerName.None? && r.m.preferredPeerName == preferred
      && r.m.status == Connecting
      && r.out == StopManager(m).out + [ConnectedPeerChanged(None), StartBrowsing, StatusChanged(Connecting)]
  {
  }

  /**
   `startFollower` reports `listening` before the listener exists, so a
   listener that cannot be created still produced a `listening` status
   immediately before its failure.
   */
  lemma StartFollowerReportsListeningFirst(m: Manager, port: Port, creation: ListenerCreation)
    ensures var r := StepManager(m, StartFollower(port, creation));
      && |r.out| >= |StopManager(m).out| + 2
      && r.out[|StopManager(m).out|] == StatusChanged(Listening)
      && !r.m.browser && r.m.connection.None?
      && (creation.Created? ==> r.m.status == Listening && r.m.listener == Some(port) && r.out[|r.out| - 1] == StartListening(port))
      && (creation.PortRejected? ==> r.m.status == ConnectionStatus.Failed("Invalid port") && r.m.listener.None?)
      && (creation.Threw? ==> r.m.status == ConnectionStatus.Failed(creation.message) && r.m.listener.None?)
  {
  }

  // ----- sending -----

  /** Sending without a connection is a silent no-op. */
  lemma SendWithoutConnectionIsNoOp(m: Manager, c: SlideCommand)
    requires m.connection.None?
    ensures StepManager(m, Send(c)) == Step(m, [])
  {
  }

  /**
   Sending on a connection writes one payload and changes nothing else; the
   bytes written decode, at the other end, to exactly the command sent.
   */
  lemma SendWritesPayload(m: Manager, c: SlideCommand)
    requires m.connection.Some?
    ensures var r := StepManager(m, Send(c));
      && r.m == m && |r.out| == 1 && r.out[0].Write?
      && LineFramer.HandleReceivedData([], r.out[0].bytes) == LineFramer.Drained([c], [])
  {
    StepSend(m, c);
    var msg := SyncMessages.FromCommand(c).value;
    assert OnSend(m, c) == Step(m, [Write(SyncMessages.Payload(msg))]);
    LineFramer.PayloadRoundTrip(c);
  }

  lemma StepSend(m: Manager, c: SlideCommand)
    ensures StepManager(m, Send(c)) == OnSend(m, c)
  {
  }

  // ----- discovery and peer selection -----

  lemma StepBrowse(m: Manager, results: seq<Endpoint>)
    ensures StepManager(m, BrowseResultsChanged(results)) == OnBrowseResults(m, results)
  {
  }

  /**
   A browse-results change publishes the sorted snapshot first and replaces
   the discovered peers with it; it dials exactly when selection may dial
   and the snapshot is not empty.
   */
  lemma BrowseResultsPublishSnapshot(m: Manager, results: seq<Endpoint>)
    ensures var r := StepManager(m, BrowseResultsChanged(results));
      && r.m.discoveredPeers == Snapshot(results)
      && r.out != [] && r.out[0] == PeersChanged(Snapshot(results))
      && ((exists e :: Dial(e) in r.out) <==> MayDial(m) && Snapshot(results) != [])
  {
    StepBrowse(m, results);
    var m1 := m.(discoveredPeers := Snapshot(results));
    var s := ConnectToPreferredPeer(m1);
    assert OnBrowseResults(m, results) == Step(s.m, [PeersChanged(Snapshot(results))] + s.out);
    forall e
      ensures Dial(e) in [PeersChanged(Snapshot(results))] + s.out <==> Dial(e) in s.out
    {
    }
  }

  /** While a connection exists and a peer name is recorded, discovery never dials again. */
  lemma NoRedialWhileConnected(m: Manager, results: seq<Endpoint>)
    requires m.connection.Some? && m.connectedPeerName.Some?
    ensures StepManager(m, BrowseResultsChanged(results)).out == [PeersChanged(Snapshot(results))]
  {
    StepBrowse(m, results);
    var m1 := m.(discoveredPeers := Snapshot(results));
    assert !MayDial(m1);
    assert ConnectToPreferredPeer(m1).out == [];
    assert OnBrowseResults(m, results).out == [PeersChanged(Snapshot(results))] + [];
  }

  /** With a preferred peer among the discovered ones, selection dials that peer. */
  lemma SelectionPrefersNamedPeer(m: Manager, i: int)
    requires MayDial(m) && 0 <= i < |m.discoveredPeers|
    requires m.preferredPeerName == Some(m.discoveredPeers[i].name)
    ensures ConnectToPreferredPeer(m).out[1] == Dial(ChosenPeer(m).endpoint)
    ensures Some(ChosenPeer(m).name) == m.preferredPeerName
  {
    assert m.discoveredPeers[i] in m.discoveredPeers;
  }

  /** Without a match (or without a preferred name), selection dials the first peer. */
  lemma SelectionFallsBackToFirst(m: Manager)
    requires MayDial(m) && m.discoveredPeers != []
    requires forall p :: p in m.discoveredPeers ==> Some(p.name) != m.preferredPeerName
    ensures ConnectToPreferredPeer(m).out == [ConnectedPeerChanged(Some(m.discoveredPeers[0].name)), Dial(m.discoveredPeers[0].endpoint)]
  {
  }

  /** An incoming connection replaces (and cancels) the current one. */
  lemma InboundReplacesConnection(m: Manager, remote: Endpoint)
    ensures var r := StepManager(m, InboundConnection(remote));
      && r.m == m.(connection := Some(remote))
      && (CancelConnection in r.out <==> m.connection.Some?)
      && r.out[|r.out| - 1] == AdoptInbound(remote)
  {
  }

  // ----- failure and reconnect -----

  /**
   A connection that fails keeps its connection object and peer name, so the
   reconnect it schedules is a no-op: the timer firing dials nothing and the
   status stays the failure.
   */
  lemma FailedConnectionReconnectIsNoOp(m: Manager, message: string)
    requires m.connection.Some? && m.connectedPeerName.Some?
    ensures var f := StepManager(m, ConnectionStateChanged(ConnectionState.Failed(message)));
      var t := StepManager(f.m, ReconnectTimerFired(m.nextTimerId));
      && f.m.status == ConnectionStatus.Failed(message)
      && t.out == []
      && t.m.status == ConnectionStatus.Failed(message)
      && t.m.connection == m.connection
  {
  }

  /**
   Once the failed connection is reported cancelled, its peer name is
   cleared, and the pending reconnect dials a discovered peer when it fires.
   */
  lemma ReconnectAfterCancel(m: Manager, message: string)
    requires m.connection.Some? && m.discoveredPeers != []
    ensures var f := StepManager(m, ConnectionStateChanged(ConnectionState.Failed(message)));
      var c := StepManager(f.m, ConnectionStateChanged(Cancelled));
      var t := StepManager(c.m, ReconnectTimerFired(m.nextTimerId));
      && c.m.connectedPeerName.None?
      && t.out == [ConnectedPeerChanged(Some(ChosenPeer(c.m).name)), Dial(ChosenPeer(c.m).endpoint)]
  {
  }

  /** A reconnect item that was cancelled or has already run does nothing when it fires. */
  lemma DeadTimerIsNoOp(m: Manager, item: nat)
    requires item !in m.liveTimers
    ensures StepManager(m, ReconnectTimerFired(item)) == Step(m, [])
  {
  }

  /**
   Scheduling a reconnect cancels the previous item: when the new one fires,
   the old one no longer can.
   */
  lemma RescheduleCancelsPrevious(m: Manager)
    requires Valid(m) && m.reconnectItem.Some?
    ensures m.reconnectItem.value !in ScheduleReconnect(m).m.liveTimers
    ensures ScheduleReconnect(m).m.liveTimers == {m.nextTimerId}
  {
  }

  // ----- receiving -----

  /** The commands among a run's outputs, in order. */
  function CommandsOf(out: seq<Output>): (cs: seq<SlideCommand>)
    ensures |cs| <= |out|
  {
    if out == [] then []
    else (if out[0].CommandReceived? then [out[0].command] else []) + CommandsOf(out[1..])
  }

  lemma {:induction false} CommandsOfAppend(a: seq<Output>, b: seq<Output>)
    ensures CommandsOf(a + b) == CommandsOf(a) + CommandsOf(b)
    decreases |a|
  {
    if a == [] {
      assert a + b == b;
    } else {
      CommandsOfAppend(a[1..], b);
      var head := if a[0].CommandReceived? then [a[0].command] else [];
      assert (a + b)[0] == a[0];
      assert (a + b)[1..] == a[1..] + b;
      assert CommandsOf(a + b) == head + CommandsOf(a[1..] + b);
      assert CommandsOf(a) == head + CommandsOf(a[1..]);
    }
  }

  lemma {:induction false} CommandsOfCommands(cs: seq<SlideCommand>)
    ensures CommandsOf(Commands(cs)) == cs
    decreases |cs|
  {
    if cs != [] {
      CommandsOfCommands(cs[1..]);
      assert Commands(cs)[1..] == Commands(cs[1..]);
    }
  }

  lemma CommandsOfReceiveNext(m: Manager)
    ensures CommandsOf(ReceiveNext(m)) == []
  {
  }

  /** The receive events that deliver `chunks` on a connection that stays open. */
  function ReceiveEvents(chunks: seq<seq<Byte>>): (es: seq<Event>)
    ensures |es| == |chunks|
    ensures forall i :: 0 <= i < |chunks| ==> es[i] == ReceiveCompleted(chunks[i], false, false)
  {
    if chunks == [] then [] else [ReceiveCompleted(chunks[0], false, false)] + ReceiveEvents(chunks[1..])
  }

  /** An empty chunk on an LF-free buffer dispatches nothing and keeps the buffer. */
  lemma EmptyChunk(buffer: seq<Byte>)
    requires LF !in buffer
    ensures LineFramer.HandleReceivedData(buffer, []) == LineFramer.Drained([], buffer)
  {
    assert buffer + [] == buffer;
    LineFramer.SplitWithoutDelimiter(buffer);
  }

  /** One receive completion dispatches the framer's commands, then asks for more. */
  lemma ReceiveOne(m: Manager, chunk: seq<Byte>)
    requires LF !in m.receiveBuffer
    ensures var r := StepManager(m, ReceiveCompleted(chunk, false, false));
      && CommandsOf(r.out) == LineFramer.HandleReceivedData(m.receiveBuffer, chunk).commands
      && r.m == m.(receiveBuffer := LineFramer.HandleReceivedData(m.receiveBuffer, chunk).rest)
  {
    var d := LineFramer.HandleReceivedData(m.receiveBuffer, chunk);
    var m1 := m.(receiveBuffer := d.rest);
    StepReceive(m, chunk, false, false);
    ReceiveContinues(m, chunk, d);
    CommandsOfAppend(Commands(d.commands), ReceiveNext(m1));
    CommandsOfCommands(d.commands);
    CommandsOfReceiveNext(m1);
  }

  lemma ReceiveContinues(m: Manager, chunk: seq<Byte>, d: LineFramer.Drained)
    requires LF !in m.receiveBuffer
    requires d == LineFramer.HandleReceivedData(m.receiveBuffer, chunk)
    ensures ReceiveCompletion(m, chunk, false, false)
      == Step(m.(receiveBuffer := d.rest), Commands(d.commands) + ReceiveNext(m.(receiveBuffer := d.rest)))
  {
    if chunk == [] {
      EmptyChunk(m.receiveBuffer);
    }
  }

  lemma {:induction false} ReceiveChunksFeed(m: Manager, chunks: seq<seq<Byte>>)
    requires LF !in m.receiveBuffer
    ensures var r := Run(m, ReceiveEvents(chunks));
      && CommandsOf(r.out) == LineFramer.FeedChunks(m.receiveBuffer, chunks).commands
      && r.m == m.(receiveBuffer := LineFramer.FeedChunks(m.receiveBuffer, chunks).rest)
    decreases |chunks|
  {
    if chunks != [] {
      var es := ReceiveEvents(chunks);
      assert es[1..] == ReceiveEvents(chunks[1..]);
      ReceiveOne(m, chunks[0]);
      var s := StepManager(m, es[0]);
      ReceiveChunksFeed(s.m, chunks[1..]);
      CommandsOfAppend(s.out, Run(s.m, es[1..]).out);
    }
  }

  /**
   Manager-level chunking invariance: on an open connection, the commands
   reported for a byte stream and the bytes left buffered do not depend on
   how the stream was split into receive completions.
   */
  lemma ReceiveChunks(m: Manager, chunks: seq<seq<Byte>>)
    requires LF !in m.receiveBuffer
    ensures var r := Run(m, ReceiveEvents(chunks));
      && CommandsOf(r.out) == LineFramer.HandleReceivedData(m.receiveBuffer, LineFramer.Concat(chunks)).commands
      && r.m.receiveBuffer == LineFramer.HandleReceivedData(m.receiveBuffer, LineFramer.Concat(chunks)).rest
  {
    ReceiveChunksFeed(m, chunks);
    LineFramer.ChunkingInvariance(m.receiveBuffer, chunks);
  }

  /**
   When the peer closes the stream or the receive fails, the complete lines
   already received are still dispatched, the connection is cancelled and a
   reconnect is scheduled.
   */
  lemma ReceiveEndSchedulesReconnect(m: Manager, data: seq<Byte>, isComplete: bool, hasError: bool)
    requires LF !in m.receiveBuffer && m.connection.Some? && (isComplete || hasError)
    ensures var r := StepManager(m, ReceiveCompleted(data, isComplete, hasError));
      && CommandsOf(r.out) == LineFramer.HandleReceivedData(m.receiveBuffer, data).commands
      && r.out != [] && r.out[|r.out| - 1] == CancelConnection
      && r.m.reconnectItem == Some(m.nextTimerId) && m.nextTimerId in r.m.liveTimers
  {
    var d := LineFramer.HandleReceivedData(m.receiveBuffer, data);
    StepReceive(m, data, isComplete, hasError);
    ReceiveEndOutputs(m, data, isComplete, hasError, d);
    CommandsOfAppend(Commands(d.commands), [CancelConnection]);
    CommandsOfCommands(d.commands);
  }

  lemma StepReceive(m: Manager, data: seq<Byte>, isComplete: bool, hasError: bool)
    ensures StepManager(m, ReceiveCompleted(data, isComplete, hasError)) == ReceiveCompletion(m, data, isComplete, hasError)
  {
  }

  lemma ReceiveEndOutputs(m: Manager, data: seq<Byte>, isComplete: bool, hasError: bool, d: LineFramer.Drained)
    requires LF !in m.receiveBuffer && m.connection.Some? && (isComplete || hasError)
    requires d == LineFramer.HandleReceivedData(m.receiveBuffer, data)
    ensures var r := ReceiveCompletion(m, data, isComplete, hasError);
      && r.out == Commands(d.commands) + [CancelConnection]
      && r.m.reconnectItem == Some(m.nextTimerId) && m.nextTimerId in r.m.liveTimers
  {
    if data == [] {
      EmptyChunk(m.receiveBuffer);
    }
  }
}
