/** The wire messages: one ASCII token per line. */
module SyncMessages {
  import opened Wrappers
  import opened Ascii
  import SlideCommands

  datatype SyncMessage = Next | Previous | Ping | Pong

  const AllMessages: seq<SyncMessage> := [Next, Previous, Ping, Pong]

  /** The token each message is written as. */
  function RawValue(m: SyncMessage): string {
    match m
    case Next => "NEXT"
    case Previous => "PREV"
    case Ping => "PING"
    case Pong => "PONG"
  }

  /** Tokens are four upper-case ASCII letters, so they hold no delimiter and no whitespace. */
  predicate IsTokenText(s: string) {
    |s| == 4 && forall i :: 0 <= i < 4 ==> 'A' <= s[i] <= 'Z'
  }

  lemma TokensAreTokenText(m: SyncMessage)
    ensures IsTokenText(RawValue(m))
  {
  }

  /** `SyncMessage(rawValue:)`: exact, case-sensitive token lookup. */
  function FromRawValue(s: string): (r: Option<SyncMessage>)
    ensures r.Some? ==> RawValue(r.value) == s
    ensures r.None? ==> forall m :: RawValue(m) != s
  {
    if s == "NEXT" then Some(Next)
    else if s == "PREV" then Some(Previous)
    else if s == "PING" then Some(Ping)
    else if s == "PONG" then Some(Pong)
    else None
  }

  /** `SyncMessage(command:)`: declared failable, but every command has a message. */
  function FromCommand(c: SlideCommands.SlideCommand): (r: Option<SyncMessage>)
    ensures r.Some?
    ensures r.value != Ping && r.value != Pong
  {
    match c
    case Next => Some(Next)
    case Previous => Some(Previous)
  }

  /** `commandOrNil()`: the reserved tokens carry no command. */
  function CommandOrNil(m: SyncMessage): (r: Option<SlideCommands.SlideCommand>)
    ensures r.None? <==> m == Ping || m == Pong
  {
    match m
    case Next => Some(SlideCommands.Next)
    case Previous => Some(SlideCommands.Previous)
    case Ping => None
    case Pong => None
  }

  /** The token as UTF-8 bytes, without the delimiter. */
  function TokenBytes(m: SyncMessage): (bs: seq<Byte>)
    ensures |bs| == 4 && LF !in bs
    ensures !IsWhitespace(bs[0]) && !IsWhitespace(bs[3])
  {
    match m
    case Next => [0x4E, 0x45, 0x58, 0x54]
    case Previous => [0x50, 0x52, 0x45, 0x56]
    case Ping => [0x50, 0x49, 0x4E, 0x47]
    case Pong => [0x50, 0x4F, 0x4E, 0x47]
  }

  /** The byte constants are the ASCII encoding of the tokens. */
  lemma TokenBytesEncodeRawValue(m: SyncMessage)
    ensures IsAsciiText(RawValue(m))
    ensures TokenBytes(m) == EncodeAscii(RawValue(m))
  {
    var e := EncodeAscii(RawValue(m));
    assert e == [e[0], e[1], e[2], e[3]];
  }

  /** Distinct messages have distinct token bytes. */
  lemma TokenBytesInjective(a: SyncMessage, b: SyncMessage)
    ensures TokenBytes(a) == TokenBytes(b) <==> a == b
  {
    if a != b {
      assert TokenBytes(a)[0] != TokenBytes(b)[0] || TokenBytes(a)[1] != TokenBytes(b)[1];
    }
  }

  /** `payload`: the UTF-8 token followed by exactly one line feed. */
  function Payload(m: SyncMessage): (bs: seq<Byte>)
    ensures |bs| == |RawValue(m)| + 1
    ensures bs[..|bs| - 1] == TokenBytes(m) && bs[|bs| - 1] == LF
    ensures forall i :: 0 <= i < |bs| - 1 ==> bs[i] != LF
  {
    TokenBytes(m) + [LF]
  }

  /** Converting a command to a message and back gives the command. */
  lemma CommandRoundTrip(c: SlideCommands.SlideCommand)
    ensures FromCommand(c).Some?
    ensures CommandOrNil(FromCommand(c).value) == Some(c)
  {
  }

  /** Parsing a token gives the message back; hence the tokens are pairwise distinct. */
  lemma RawValueRoundTrip(m: SyncMessage)
    ensures FromRawValue(RawValue(m)) == Some(m)
  {
  }

  lemma RawValuesDistinct(a: SyncMessage, b: SyncMessage)
    ensures RawValue(a) == RawValue(b) <==> a == b
  {
    RawValueRoundTrip(a);
    RawValueRoundTrip(b);
  }

  /** The reserved tokens parse as messages yet carry no command. */
  lemma ReservedTokensAreInert()
    ensures FromRawValue("PING") == Some(Ping) && CommandOrNil(Ping).None?
    ensures FromRawValue("PONG") == Some(Pong) && CommandOrNil(Pong).None?
  {
  }
}
