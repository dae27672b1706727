/** The status a connection manager publishes, and its user-facing text. */
module ConnectionStatuses {

  datatype ConnectionStatus =
    | Disconnected
    | Connecting
    | Listening
    | Connected
    | Failed(message: string)

  function StatusText(s: ConnectionStatus): (text: string)
    ensures text != []
    ensures s.Failed? ==> text == "Error: " + s.message
    ensures s.Failed? ==> text[..7] == "Error: " && text[7..] == s.message
    ensures text[0] == 'E' <==> s.Failed?
  {
    match s
    case Disconnected => "Disconnected"
    case Connecting => "Connecting"
    case Listening => "Listening"
    case Connected => "Connected"
    case Failed(m) => "Error: " + m
  }

  predicate IsConnected(s: ConnectionStatus) {
    s.Connected?
  }

  lemma NullaryStatusTexts()
    ensures StatusText(Disconnected) == "Disconnected"
    ensures StatusText(Connecting) == "Connecting"
    ensures StatusText(Listening) == "Listening"
    ensures StatusText(Connected) == "Connected"
  {
  }

  /** `isConnected` singles out exactly the connected status. */
  lemma IsConnectedExactly(s: ConnectionStatus)
    ensures IsConnected(s) <==> s == Connected
  {
  }

  /**
   The status text determines the status: the four fixed texts never start
   with "Error: ", and a failure's text carries its message verbatim.
   */
  lemma StatusTextInjective(a: ConnectionStatus, b: ConnectionStatus)
    requires StatusText(a) == StatusText(b)
    ensures a == b
  {
    if a.Failed? && b.Failed? {
      assert a.message == StatusText(a)[7..] == StatusText(b)[7..] == b.message;
    }
  }

  /** Equality is structural: failures compare by message. */
  lemma FailedEquality(x: string, y: string)
    ensures Failed(x) == Failed(y) <==> x == y
    ensures forall s: ConnectionStatus :: !s.Failed? ==> Failed(x) != s
  {
  }
}
