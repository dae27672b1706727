/** The two slide-navigation commands and their fixed attributes. */
module SlideCommands {
  import opened Wrappers

  datatype SlideCommand = Next | Previous

  /** Every command, in declaration order (`CaseIterable.allCases`). */
  const AllCommands: seq<SlideCommand> := [Next, Previous]

  function RawValue(c: SlideCommand): (r: string)
    ensures r != []
  {
    match c
    case Next => "next"
    case Previous => "previous"
  }

  /** `SlideCommand(rawValue:)`: only the exact raw values are recognised. */
  function FromRawValue(s: string): (r: Option<SlideCommand>)
    ensures r.Some? ==> RawValue(r.value) == s
    ensures r.None? ==> forall c :: RawValue(c) != s
  {
    if s == "next" then Some(Next)
    else if s == "previous" then Some(Previous)
    else None
  }

  function DisplayName(c: SlideCommand): string {
    match c
    case Next => "Next Slide"
    case Previous => "Previous Slide"
  }

  /** The macOS virtual key code posted for a command (UInt16 in the source). */
  function KeyCode(c: SlideCommand): (k: int)
    ensures 0 <= k < 0x1_0000
  {
    match c
    case Next => 124
    case Previous => 123
  }

  /** Raw values, display names and key codes are the fixed literals of the enum. */
  lemma CommandAttributes()
    ensures RawValue(Next) == "next" && RawValue(Previous) == "previous"
    ensures DisplayName(Next) == "Next Slide" && DisplayName(Previous) == "Previous Slide"
    ensures KeyCode(Next) == 124 && KeyCode(Previous) == 123
  {
  }

  /** Parsing a command's raw value gives the command back. */
  lemma RawValueRoundTrip(c: SlideCommand)
    ensures FromRawValue(RawValue(c)) == Some(c)
  {
  }

  /** Different commands post different keys. */
  lemma KeyCodeInjective(a: SlideCommand, b: SlideCommand)
    ensures KeyCode(a) == KeyCode(b) <==> a == b
  {
  }

  lemma AllCommandsComplete(c: SlideCommand)
    ensures c in AllCommands && |AllCommands| == 2
  {
  }
}
