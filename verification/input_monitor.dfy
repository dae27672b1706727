/**
 The input monitor: a keyboard event tap that turns the presenter keys into
 slide commands. Every event passes through unchanged; the model therefore
 only tracks the tap and the command an event yields.
 */
module InputMonitor {
  import opened Wrappers
  import opened SlideCommands

  /** Key codes: right arrow, space, left arrow. */
  const RightArrowKey := 124
  const SpaceKey := 49
  const LeftArrowKey := 123

  /** The tap's state: installed (with its run-loop source) and enabled. */
  datatype Monitor = Monitor(installed: bool, enabled: bool)

  const Idle := Monitor(false, false)

  /** A tap can only be enabled while installed. */
  predicate Consistent(m: Monitor) {
    m.enabled ==> m.installed
  }

  /** Event types the tap sees. */
  datatype EventType = KeyDown | TapDisabledByTimeout | TapDisabledByUserInput | OtherEvent

  /** `command(for:)`. */
  function CommandFor(keyCode: int): (r: Option<SlideCommand>)
    ensures r == Some(Next) <==> keyCode == RightArrowKey || keyCode == SpaceKey
    ensures r == Some(Previous) <==> keyCode == LeftArrowKey
  {
    if keyCode == RightArrowKey || keyCode == SpaceKey then Some(Next)
    else if keyCode == LeftArrowKey then Some(Previous)
    else None
  }

  /** Each command's own key code is recognised as that command. */
  lemma CommandForKeyCode(c: SlideCommand)
    ensures CommandFor(KeyCode(c)) == Some(c)
  {
    CommandAttributes();
  }

  /** Only three key codes yield a command. */
  lemma OnlyPresenterKeys(keyCode: int)
    ensures CommandFor(keyCode).Some? <==> keyCode in {RightArrowKey, SpaceKey, LeftArrowKey}
  {
  }

  datatype Started = Started(monitor: Monitor, started: bool)

  /**
   `start`: true at once if a tap is installed; otherwise the tap creation
   (which the system may refuse, an input here) decides.
   */
  function Start(m: Monitor, tapCreated: bool): (r: Started)
    ensures m.installed ==> r == Started(m, true)
    ensures !m.installed ==> r.started == tapCreated
    ensures !m.installed && tapCreated ==> r.monitor == Monitor(true, true)
    ensures !m.installed && !tapCreated ==> r.monitor == m
  {
    if m.installed then Started(m, true)
    else if !tapCreated then Started(m, false)
    else Started(Monitor(true, true), true)
  }

  /** `stop`: disable and remove the tap, if any. */
  function Stop(m: Monitor): (r: Monitor)
    ensures !r.installed
    ensures Consistent(m) ==> r == Idle
    ensures !m.installed ==> r == m
  {
    if m.installed then Idle else m
  }

  /**
   Once started, starting again reports success and changes nothing, whatever
   the system would do; stopping twice is stopping once; start and stop keep
   the tap consistent.
   */
  lemma StartStopIdempotent(m: Monitor, created: bool, again: bool)
    ensures Start(m, created).started ==> Start(Start(m, created).monitor, again) == Started(Start(m, created).monitor, true)
    ensures Stop(Stop(m)) == Stop(m)
    ensures Consistent(m) ==> Consistent(Start(m, created).monitor) && Consistent(Stop(m))
    ensures Stop(Start(Idle, created).monitor) == Idle
  {
  }

  datatype Handled = Handled(monitor: Monitor, command: Option<SlideCommand>)

  /**
   `handleEvent`: a tap disabled by the system is re-enabled; a key-down
   that is not an auto-repeat yields the command of its key code.
   */
  function HandleEvent(m: Monitor, eventType: EventType, autorepeat: int, keyCode: int): (r: Handled)
    ensures r.command.Some? <==> eventType == KeyDown && autorepeat == 0 && CommandFor(keyCode).Some?
    ensures r.command.Some? ==> r.command == CommandFor(keyCode)
    ensures (eventType == TapDisabledByTimeout || eventType == TapDisabledByUserInput) && m.installed ==> r.monitor.enabled
    ensures r.monitor.installed == m.installed
    ensures !(eventType == TapDisabledByTimeout || eventType == TapDisabledByUserInput) ==> r.monitor == m
  {
    if eventType == TapDisabledByTimeout || eventType == TapDisabledByUserInput then
      Handled(if m.installed then m.(enabled := true) else m, None)
    else if eventType != KeyDown || autorepeat != 0 then Handled(m, None)
    else Handled(m, CommandFor(keyCode))
  }

  /** Holding a key down yields one command: the auto-repeats yield none. */
  lemma HeldKeyYieldsOneCommand(m: Monitor, keyCode: int, repeats: nat)
    requires repeats > 0
    ensures HandleEvent(m, KeyDown, repeats, keyCode).command.None?
    ensures HandleEvent(m, KeyDown, 0, keyCode).command == CommandFor(keyCode)
  {
  }
}
