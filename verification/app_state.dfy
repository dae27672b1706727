/**
 The app state: the role orchestrator. It holds the app-facing copies of the
 connection status, the peer list and the connected peer name, wires the
 manager's notifications and the input monitor's commands to their
 handlers, gates commands by role and by whether a presentation app is
 frontmost, and applies the follower's port-conflict recovery.

 Calls into the connection manager, the key sender and the accessibility
 service are returned as `Action`s; whether a presentation app is active
 and whether the system grants an event tap are inputs.
 */
module AppState {
  import opened Wrappers
  import opened Ascii
  import opened SlideCommands
  import opened AppRoles
  import opened ConnectionStatuses
  import opened DiscoveredPeers
  import opened Settings
  import InputMonitor
  import ConnectionManager

  const MaxPortRetries := 5
  const BasePort := 54545
  const MaxPort := 65535
  const AddressInUse := "address already in use"

  datatype Action =
    | StartManagerController(preferredPeerName: string)
    | StartManagerFollower(port: nat)
    | SendToPeer(command: SlideCommand)
    | PressKey(command: SlideCommand)
    | RequestAccessibility

  datatype App = App(
    status: ConnectionStatus,
    peers: seq<DiscoveredPeer>,
    connectedPeerName: Option<string>,
    retryCount: nat,
    settings: Persisted,
    monitor: InputMonitor.Monitor)

  datatype Result = Result(app: App, actions: seq<Action>)

  function Role(app: App): AppRole {
    app.settings.store.role
  }

  /**
   The port `nextPortString` moves to: one up, wrapping from the top of the
   range to the base port; an unparsable setting counts as the base port.
   */
  function NextPort(s: SettingsStore): (p: nat)
    ensures PortValue(s.portString).None? ==> p == BasePort + 1
    ensures PortValue(s.portString).Some? && PortValue(s.portString).value >= MaxPort ==> p == BasePort
    ensures PortValue(s.portString).Some? && PortValue(s.portString).value < MaxPort ==> p == PortValue(s.portString).value + 1
    ensures 1 <= p <= MaxPort
  {
    var current := PortValue(s.portString).GetOr(BasePort);
    if current >= MaxPort then BasePort else current + 1
  }

  /** `nextPortString`: the next port, rendered in decimal; it always parses back to that port. */
  function NextPortString(s: SettingsStore): (r: string)
    ensures PortValue(r) == Some(NextPort(s))
  {
    PortRoundTrip(NextPort(s));
    Decimal(NextPort(s))
  }

  /** `startController`: start the tap, ask for accessibility, start the manager as controller. */
  function StartController(app: App, tapCreated: bool): (r: Result)
    ensures r.app == app.(monitor := InputMonitor.Start(app.monitor, tapCreated).monitor)
    ensures r.actions == [RequestAccessibility, StartManagerController(app.settings.store.selectedPeerName)]
  {
    var started := InputMonitor.Start(app.monitor, tapCreated);
    Result(app.(monitor := started.monitor), [RequestAccessibility, StartManagerController(app.settings.store.selectedPeerName)])
  }

  /**
   `startFollower`: stop the tap, ask for accessibility, then start the
   manager as follower on the configured port; an unparsable port is
   reported as a failure directly, without starting anything.
   */
  function StartFollower(app: App): (r: Result)
    ensures !r.app.monitor.installed
    ensures PortValue(app.settings.store.portString).None? ==>
      r.app == app.(monitor := InputMonitor.Stop(app.monitor), status := ConnectionStatus.Failed("Invalid port"))
      && r.actions == [RequestAccessibility]
    ensures PortValue(app.settings.store.portString).Some? ==>
      r.app == app.(monitor := InputMonitor.Stop(app.monitor))
      && r.actions == [RequestAccessibility, StartManagerFollower(PortValue(app.settings.store.portString).value)]
  {
    var app1 := app.(monitor := InputMonitor.Stop(app.monitor));
    match PortValue(app.settings.store.portString)
    case None => Result(app1.(status := ConnectionStatus.Failed("Invalid port")), [RequestAccessibility])
    case Some(port) => Result(app1, [RequestAccessibility, StartManagerFollower(port)])
  }

  /** `applySettings`: start in the configured role. */
  function ApplySettings(app: App, tapCreated: bool): (r: Result)
    ensures Role(app) == Controller ==> r == StartController(app, tapCreated)
    ensures Role(app) == Follower ==> r == StartFollower(app)
  {
    match Role(app)
    case Controller => StartController(app, tapCreated)
    case Follower => StartFollower(app)
  }

  /** Whether a failure message triggers port recovery. */
  predicate Recovers(app: App, message: string) {
    && Role(app) == Follower
    && ContainsIgnoringCase(message, AddressInUse)
    && app.retryCount < MaxPortRetries
  }

  /** `handleAutoPortRecoveryIfNeeded`. */
  function AutoPortRecovery(app: App, status: ConnectionStatus): (r: Result)
  {
    match status
    case Failed(message) =>
      if Recovers(app, message) then
        var app1 := app.(retryCount := app.retryCount + 1, settings := SetPortString(app.settings, NextPortString(app.settings.store)));
        StartFollower(app1)
      else Result(app, [])
    case Listening => Result(app.(retryCount := 0), [])
    case _ => Result(app, [])
  }

  /** The status callback: record the status, then apply the recovery policy. */
  function HandleStatus(app: App, status: ConnectionStatus): Result {
    AutoPortRecovery(app.(status := status), status)
  }

  /** `handleLocal`: a key on the controller is sent to the peer. */
  function HandleLocal(app: App, c: SlideCommand, presentationActive: bool): (r: Result)
    ensures r.app == app
    ensures r.actions == [SendToPeer(c)] <==> Role(app) == Controller && presentationActive
    ensures r.actions != [SendToPeer(c)] ==> r.actions == []
  {
    if Role(app) == Controller && presentationActive then Result(app, [SendToPeer(c)]) else Result(app, [])
  }

  /** `handleRemote`: a command from the peer is executed on the follower. */
  function HandleRemote(app: App, c: SlideCommand, presentationActive: bool): (r: Result)
    ensures r.app == app
    ensures r.actions == [PressKey(c)] <==> Role(app) == Follower && presentationActive
    ensures r.actions != [PressKey(c)] ==> r.actions == []
  {
    if Role(app) == Follower && presentationActive then Result(app, [PressKey(c)]) else Result(app, [])
  }

  /** `triggerTest`: send as a controller, execute as a follower, both gated by the presentation check. */
  function TriggerTest(app: App, c: SlideCommand, presentationActive: bool): (r: Result)
    ensures r.app == app
    ensures Role(app) == Controller ==> (r.actions == [SendToPeer(c)] <==> presentationActive)
    ensures Role(app) == Follower ==> (r.actions == [PressKey(c)] <==> presentationActive)
    ensures !presentationActive ==> r.actions == []
  {
    var action := if Role(app) == Controller then SendToPeer(c) else PressKey(c);
    if presentationActive then Result(app, [action]) else Result(app, [])
  }

  predicate HasPeerNamed(peers: seq<DiscoveredPeer>, name: string) {
    exists i :: 0 <= i < |peers| && peers[i].name == name
  }

  /** `handlePeersUpdate`: store the list; forget a selected name no peer carries. */
  function HandlePeersUpdate(app: App, peers: seq<DiscoveredPeer>): (r: App)
    ensures r.peers == peers
    ensures HasPeerNamed(peers, app.settings.store.selectedPeerName) ==> r == app.(peers := peers)
    ensures !HasPeerNamed(peers, app.settings.store.selectedPeerName) ==>
      r == app.(peers := peers, settings := SetSelectedPeerName(app.settings, ""))
  {
    if HasPeerNamed(peers, app.settings.store.selectedPeerName) then app.(peers := peers)
    else app.(peers := peers, settings := SetSelectedPeerName(app.settings, ""))
  }

  /** Delivers one manager notification to its callback. */
  function Deliver(app: App, o: ConnectionManager.Output, presentationActive: bool): Result {
    match o
    case StatusChanged(s) => HandleStatus(app, s)
    case PeersChanged(peers) => Result(HandlePeersUpdate(app, peers), [])
    case ConnectedPeerChanged(name) => Result(app.(connectedPeerName := name), [])
    case CommandReceived(c) => HandleRemote(app, c, presentationActive)
    case _ => Result(app, [])
  }

  // ----- the recovery policy -----

  /**
   Every status is recorded; a failure recovers exactly when the role is
   follower, the message mentions the address being in use (ignoring case)
   and fewer than five recoveries ran since the counter was last reset. A
   recovery counts one, moves the port up (wrapping) and restarts the follower.
   */
  lemma RecoveryExactly(app: App, message: string)
    ensures var r := HandleStatus(app, ConnectionStatus.Failed(message));
      && (Recovers(app, message) ==>
          && r.app.retryCount == app.retryCount + 1
          && r.app.status == ConnectionStatus.Failed(message)
          && r.app.settings.store.portString == NextPortString(app.settings.store)
          && r.actions == [RequestAccessibility, StartManagerFollower(NextPort(app.settings.store))])
      && (!Recovers(app, message) ==> r == Result(app.(status := ConnectionStatus.Failed(message)), []))
  {
    var a := app.(status := ConnectionStatus.Failed(message));
    if Recovers(app, message) {
      var a1 := a.(retryCount := a.retryCount + 1, settings := SetPortString(a.settings, NextPortString(a.settings.store)));
      assert a1.settings.store.portString == NextPortString(app.settings.store);
    }
  }

  /** `listening` resets the counter; every other non-failure leaves it alone (`connected` included). */
  lemma ListeningResetsCounter(app: App, s: ConnectionStatus)
    requires !s.Failed?
    ensures s == Listening ==> HandleStatus(app, s) == Result(app.(status := s, retryCount := 0), [])
    ensures s != Listening ==> HandleStatus(app, s) == Result(app.(status := s), [])
  {
  }

  /** The controller role never recovers. */
  lemma ControllerNeverRecovers(app: App, s: ConnectionStatus)
    requires Role(app) == Controller
    ensures HandleStatus(app, s).actions == []
  {
  }

  /** The usual system message for a port conflict triggers recovery. */
  lemma PortConflictMessageRecognised()
    ensures ContainsIgnoringCase("Address already in use", AddressInUse)
    ensures !ContainsIgnoringCase("Connection refused", AddressInUse)
  {
    assert MatchesAt("Address already in use", AddressInUse, 0);
  }

  /** Delivers a run of status notifications in order. */
  function DeliverStatuses(app: App, statuses: seq<ConnectionStatus>): Result
    decreases |statuses|
  {
    if statuses == [] then Result(app, [])
    else
      var r := HandleStatus(app, statuses[0]);
      var rest := DeliverStatuses(r.app, statuses[1..]);
      Result(rest.app, r.actions + rest.actions)
  }

  /** How many follower restarts a list of actions holds. */
  function FollowerStarts(actions: seq<Action>): nat {
    if actions == [] then 0
    else (if actions[0].StartManagerFollower? then 1 else 0) + FollowerStarts(actions[1..])
  }

  lemma {:induction false} FollowerStartsAppend(a: seq<Action>, b: seq<Action>)
    ensures FollowerStarts(a + b) == FollowerStarts(a) + FollowerStarts(b)
    decreases |a|
  {
    if a == [] {
      assert a + b == b;
    } else {
      FollowerStartsAppend(a[1..], b);
      assert (a + b)[0] == a[0];
      assert (a + b)[1..] == a[1..] + b;
    }
  }

  lemma OneRestart(port: nat)
    ensures FollowerStarts([RequestAccessibility, StartManagerFollower(port)]) == 1
  {
    var one := [StartManagerFollower(port)];
    assert one[1..] == [];
    assert FollowerStarts(one) == 1 + FollowerStarts([]);
    assert [RequestAccessibility] + one == [RequestAccessibility, StartManagerFollower(port)];
    assert ([RequestAccessibility] + one)[1..] == one;
  }

  /** One status notification restarts the follower at most once, and only by counting it. */
  lemma StatusStep(app: App, s: ConnectionStatus)
    requires app.retryCount <= MaxPortRetries && s != Listening
    ensures var r := HandleStatus(app, s);
      && r.app.retryCount <= MaxPortRetries
      && FollowerStarts(r.actions) == r.app.retryCount - app.retryCount
  {
    if s.Failed? {
      RecoveryExactly(app, s.message);
      OneRestart(NextPort(app.settings.store));
    }
  }

  /**
   The retry bound: without an intervening `listening`, a run of status
   notifications restarts the follower at most five times in all (fewer
   when recoveries already ran).
   */
  lemma {:induction false} RetryBound(app: App, statuses: seq<ConnectionStatus>)
    requires app.retryCount <= MaxPortRetries
    requires forall i :: 0 <= i < |statuses| ==> statuses[i] != Listening
    ensures var r := DeliverStatuses(app, statuses);
      && r.app.retryCount <= MaxPortRetries
      && FollowerStarts(r.actions) == r.app.retryCount - app.retryCount
      && FollowerStarts(r.actions) <= MaxPortRetries - app.retryCount
    decreases |statuses|
  {
    if statuses != [] {
      var r := HandleStatus(app, statuses[0]);
      StatusStep(app, statuses[0]);
      RetryBound(r.app, statuses[1..]);
      FollowerStartsAppend(r.actions, DeliverStatuses(r.app, statuses[1..]).actions);
    }
  }

  /** Each recovery moves the port up by one. */
  lemma RecoveryRotatesPort(app: App, message: string, p: nat)
    requires Recovers(app, message) && PortValue(app.settings.store.portString) == Some(p) && p < MaxPort
    ensures HandleStatus(app, ConnectionStatus.Failed(message)).actions == [RequestAccessibility, StartManagerFollower(p + 1)]
  {
    RecoveryExactly(app, message);
  }

  /** At the top of the range the recovery wraps to the base port. */
  lemma RecoveryWrapsPort(app: App, message: string)
    requires Recovers(app, message) && PortValue(app.settings.store.portString) == Some(MaxPort)
    ensures HandleStatus(app, ConnectionStatus.Failed(message)).actions == [RequestAccessibility, StartManagerFollower(BasePort)]
  {
    RecoveryExactly(app, message);
  }

  /** `n` failures in a row, each with the same message. */
  function Conflicts(message: string, n: nat): (r: seq<ConnectionStatus>)
    ensures |r| == n
    ensures forall i :: 0 <= i < n ==> r[i] == ConnectionStatus.Failed(message)
  {
    if n == 0 then [] else [ConnectionStatus.Failed(message)] + Conflicts(message, n - 1)
  }

  /** The actions of `n` successive recoveries from port `p`: restarts on p + 1, ..., p + n. */
  function Restarts(p: nat, n: nat): seq<Action>
    decreases n
  {
    if n == 0 then [] else [RequestAccessibility, StartManagerFollower(p + 1)] + Restarts(p + 1, n - 1)
  }

  /** The first recovery of a non-empty run, then the rest. */
  lemma RestartsCons(p: nat, k: nat)
    requires k > 0
    ensures Restarts(p, k) == [RequestAccessibility, StartManagerFollower(p + 1)] + Restarts(p + 1, k - 1)
  {
  }

  /** One conflict: a recovery when the counter allows it, otherwise only the recorded status. */
  lemma ConflictStep(app: App, message: string, p: nat)
    requires Role(app) == Follower && ContainsIgnoringCase(message, AddressInUse)
    requires PortValue(app.settings.store.portString) == Some(p)
    requires app.retryCount < MaxPortRetries ==> p < MaxPort
    ensures var r := HandleStatus(app, ConnectionStatus.Failed(message));
      && Role(r.app) == Follower
      && (app.retryCount < MaxPortRetries ==>
          && r.app.retryCount == app.retryCount + 1
          && PortValue(r.app.settings.store.portString) == Some(p + 1)
          && r.actions == [RequestAccessibility, StartManagerFollower(p + 1)])
      && (app.retryCount >= MaxPortRetries ==>
          && r.app.retryCount == app.retryCount
          && r.app.settings == app.settings
          && r.actions == [])
  {
    RecoveryExactly(app, message);
    if app.retryCount < MaxPortRetries {
      PortRoundTrip(p + 1);
    }
  }

  /** Once five recoveries ran, further conflicts restart nothing and leave the counter and the settings alone. */
  lemma {:induction false} ExhaustedConflictsInert(app: App, message: string, statuses: seq<ConnectionStatus>)
    requires app.retryCount >= MaxPortRetries
    requires forall i :: 0 <= i < |statuses| ==> statuses[i] == ConnectionStatus.Failed(message)
    ensures var r := DeliverStatuses(app, statuses);
      r.actions == [] && r.app.retryCount == app.retryCount && r.app.settings == app.settings
    decreases |statuses|
  {
    if statuses != [] {
      RecoveryExactly(app, message);
      var r := HandleStatus(app, statuses[0]);
      ExhaustedConflictsInert(r.app, message, statuses[1..]);
    }
  }

  /**
   A run of port conflicts that the counter still allows: each recovers,
   restarting the follower one port further up, and each counts one.
   */
  lemma {:induction false} ConflictRunRotatesPort(app: App, message: string, statuses: seq<ConnectionStatus>, p: nat)
    requires Role(app) == Follower && ContainsIgnoringCase(message, AddressInUse)
    requires forall i :: 0 <= i < |statuses| ==> statuses[i] == ConnectionStatus.Failed(message)
    requires app.retryCount + |statuses| <= MaxPortRetries
    requires PortValue(app.settings.store.portString) == Some(p) && p + |statuses| <= MaxPort
    ensures var r := DeliverStatuses(app, statuses);
      && r.actions == Restarts(p, |statuses|)
      && r.app.retryCount == app.retryCount + |statuses|
    decreases |statuses|
  {
    if statuses != [] {
      var r := HandleStatus(app, statuses[0]);
      ConflictStep(app, message, p);
      ConflictRunRotatesPort(r.app, message, statuses[1..], p + 1);
      RestartsCons(p, |statuses|);
    }
  }

  /** The restarts of five recoveries from the base port, spelled out. */
  lemma FiveRestartsFromBasePort(acts: seq<Action>)
    requires acts == Restarts(BasePort, 5)
    ensures acts == [
      RequestAccessibility, StartManagerFollower(54546),
      RequestAccessibility, StartManagerFollower(54547),
      RequestAccessibility, StartManagerFollower(54548),
      RequestAccessibility, StartManagerFollower(54549),
      RequestAccessibility, StartManagerFollower(54550)]
  {
    RestartsCons(BasePort, 5);
    RestartsCons(54546, 4);
    RestartsCons(54547, 3);
    RestartsCons(54548, 2);
    RestartsCons(54549, 1);
  }

  /**
   From the base port with a fresh counter, five conflicts restart the
   follower on 54546 to 54550 in turn; any number of further conflicts
   restart nothing.
   */
  lemma FiveConflictsFromBasePort(app: App, message: string, more: nat)
    requires Role(app) == Follower && ContainsIgnoringCase(message, AddressInUse)
    requires app.retryCount == 0 && PortValue(app.settings.store.portString) == Some(BasePort)
    ensures var five := DeliverStatuses(app, Conflicts(message, 5));
      && five.actions == [
        RequestAccessibility, StartManagerFollower(54546),
        RequestAccessibility, StartManagerFollower(54547),
        RequestAccessibility, StartManagerFollower(54548),
        RequestAccessibility, StartManagerFollower(54549),
        RequestAccessibility, StartManagerFollower(54550)]
      && DeliverStatuses(five.app, Conflicts(message, more)).actions == []
  {
    var five := DeliverStatuses(app, Conflicts(message, 5));
    ConflictRunRotatesPort(app, message, Conflicts(message, 5), BasePort);
    FiveRestartsFromBasePort(five.actions);
    ExhaustedConflictsInert(five.app, message, Conflicts(message, more));
  }

  /**
   The counter is reset by `listening` alone, and the manager reports
   `listening` as soon as the follower starts, before the bind can fail. So
   after a restart's own `listening`, a conflict recovers again even when
   five recoveries have already run: the five-recovery bound does not cap
   a persistently occupied port range.
   */
  lemma ListeningBeforeConflictRecoversAgain(app: App, message: string)
    requires Role(app) == Follower && ContainsIgnoringCase(message, AddressInUse)
    ensures var r := DeliverStatuses(app, [Listening, ConnectionStatus.Failed(message)]);
      FollowerStarts(r.actions) == 1 && r.app.retryCount == 1
  {
    var statuses := [Listening, ConnectionStatus.Failed(message)];
    var a := HandleStatus(app, Listening).app;
    assert HandleStatus(app, Listening).actions == [];
    assert a.retryCount == 0;
    RecoveryExactly(a, message);
    OneRestart(NextPort(a.settings.store));
    var b := HandleStatus(a, ConnectionStatus.Failed(message));
    assert statuses[1..] == [ConnectionStatus.Failed(message)];
    assert statuses[1..][1..] == [];
    assert DeliverStatuses(a, statuses[1..]) == Result(b.app, b.actions + []);
    assert DeliverStatuses(app, statuses) == Result(b.app, [] + (b.actions + []));
    assert [] + (b.actions + []) == b.actions;
  }

  /** A follower with an unparsable port reports the failure without recovering or counting. */
  lemma InvalidPortReported(app: App)
    requires Role(app) == Follower && PortValue(app.settings.store.portString).None?
    ensures var r := ApplySettings(app, false);
      && r.app.status == ConnectionStatus.Failed("Invalid port")
      && r.app.retryCount == app.retryCount
      && FollowerStarts(r.actions) == 0
  {
  }

  // ----- commands and peers -----

  /** Peer updates are idempotent: applying the same list twice is applying it once. */
  lemma PeersUpdateIdempotent(app: App, peers: seq<DiscoveredPeer>)
    ensures HandlePeersUpdate(HandlePeersUpdate(app, peers), peers) == HandlePeersUpdate(app, peers)
  {
    var once := HandlePeersUpdate(app, peers);
    if !HasPeerNamed(peers, app.settings.store.selectedPeerName) {
      if HasPeerNamed(peers, "") {
        assert once.settings == SetSelectedPeerName(once.settings, "").(defaults := once.settings.defaults);
      }
    }
  }

  /** After an update the selected name is either empty or carried by a listed peer. */
  lemma SelectionStaysListed(app: App, peers: seq<DiscoveredPeer>)
    ensures var s := HandlePeersUpdate(app, peers).settings.store.selectedPeerName;
      s == "" || HasPeerNamed(peers, s)
  {
  }

  /** Commands received from the peer on a follower, while presenting, are pressed in order. */
  lemma RemoteCommandsExecuted(app: App, c: SlideCommand)
    requires Role(app) == Follower
    ensures Deliver(app, ConnectionManager.CommandReceived(c), true) == Result(app, [PressKey(c)])
    ensures Deliver(app, ConnectionManager.CommandReceived(c), false) == Result(app, [])
  {
  }

  /** A controller ignores commands arriving from the network. */
  lemma ControllerIgnoresRemote(app: App, c: SlideCommand, presentationActive: bool)
    requires Role(app) == Controller
    ensures Deliver(app, ConnectionManager.CommandReceived(c), presentationActive) == Result(app, [])
  {
  }

  /** A key the monitor recognises on a controller becomes exactly one send. */
  lemma LocalKeySent(app: App, m: InputMonitor.Monitor, keyCode: int)
    requires Role(app) == Controller && InputMonitor.CommandFor(keyCode).Some?
    ensures var c := InputMonitor.HandleEvent(m, InputMonitor.KeyDown, 0, keyCode).command.value;
      HandleLocal(app, c, true).actions == [SendToPeer(InputMonitor.CommandFor(keyCode).value)]
  {
  }
}
