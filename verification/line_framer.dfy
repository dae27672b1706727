/**
 The receive side of the line protocol: bytes are appended to a carried
 buffer, every complete line (terminated by LF) is cut off, trimmed and looked
 up in the token table, and only the unterminated tail stays buffered.
 */
module LineFramer {
  import opened Wrappers
  import opened Ascii
  import opened SlideCommands
  import SyncMessages

  /**
   The message a received line names: its trimmed bytes compared with each
   token's bytes. `MessageOfLineIsParse` shows this is `SyncMessage(rawValue:)`
   applied to the trimmed line decoded as text.
   */
  function MessageOfLine(line: seq<Byte>): Option<SyncMessages.SyncMessage> {
    var t := Trim(line);
    if t == SyncMessages.TokenBytes(SyncMessages.Next) then Some(SyncMessages.Next)
    else if t == SyncMessages.TokenBytes(SyncMessages.Previous) then Some(SyncMessages.Previous)
    else if t == SyncMessages.TokenBytes(SyncMessages.Ping) then Some(SyncMessages.Ping)
    else if t == SyncMessages.TokenBytes(SyncMessages.Pong) then Some(SyncMessages.Pong)
    else None
  }

  /** For ASCII bytes, matching a token's bytes is matching its text after decoding. */
  lemma TokenMatch(t: seq<Byte>, m: SyncMessages.SyncMessage)
    requires IsAsciiBytes(t)
    ensures t == SyncMessages.TokenBytes(m) <==> DecodeAscii(t) == SyncMessages.RawValue(m)
  {
    SyncMessages.TokenBytesEncodeRawValue(m);
    if t == SyncMessages.TokenBytes(m) {
      DecodeEncodeAscii(SyncMessages.RawValue(m));
    }
    if DecodeAscii(t) == SyncMessages.RawValue(m) {
      EncodeDecodeAscii(t);
    }
  }

  /**
   The byte comparison is the parse of the source: decode the trimmed line
   (ASCII, so the decoding succeeds) and look the text up as a raw value.
   */
  lemma MessageOfLineIsParse(line: seq<Byte>)
    requires IsAsciiBytes(Trim(line))
    ensures MessageOfLine(line) == SyncMessages.FromRawValue(DecodeAscii(Trim(line)))
  {
    var t := Trim(line);
    TokenMatch(t, SyncMessages.Next);
    TokenMatch(t, SyncMessages.Previous);
    TokenMatch(t, SyncMessages.Ping);
    TokenMatch(t, SyncMessages.Pong);
  }

  /** `handleLine`: the command a received line carries, if any. */
  function LineCommand(line: seq<Byte>): Option<SlideCommand> {
    match MessageOfLine(line)
    case None => None
    case Some(m) => SyncMessages.CommandOrNil(m)
  }

  /**
   A line is recognised exactly when its trimmed bytes are a token, and it
   carries a command exactly when that token is not one of the reserved pair.
   */
  lemma LineLookup(line: seq<Byte>)
    ensures MessageOfLine(line).Some? <==> exists m :: Trim(line) == SyncMessages.TokenBytes(m)
    ensures MessageOfLine(line).Some? ==> Trim(line) == SyncMessages.TokenBytes(MessageOfLine(line).value)
    ensures LineCommand(line).Some? <==> MessageOfLine(line) in {Some(SyncMessages.Next), Some(SyncMessages.Previous)}
    ensures LineCommand(line).Some? ==> Trim(line) == SyncMessages.TokenBytes(SyncMessages.FromCommand(LineCommand(line).value).value)
  {
    if MessageOfLine(line).None? {
      forall m ensures Trim(line) != SyncMessages.TokenBytes(m) {
        match m
        case Next =>
        case Previous =>
        case Ping =>
        case Pong =>
      }
    }
  }

  function OptionToSeq<T>(o: Option<T>): (r: seq<T>)
    ensures |r| <= 1
  {
    if o.Some? then [o.value] else []
  }

  /** A sequence of lines, each written with its terminating LF. */
  function JoinLines(lines: seq<seq<Byte>>): seq<Byte> {
    if lines == [] then [] else lines[0] + [LF] + JoinLines(lines[1..])
  }

  predicate NoDelimiter(lines: seq<seq<Byte>>) {
    forall i :: 0 <= i < |lines| ==> LF !in lines[i]
  }

  datatype Split = Split(lines: seq<seq<Byte>>, rest: seq<Byte>)

  /**
   Cuts every complete line off `buf`, in order, as the receive loop does by
   repeatedly searching for the first LF.
   */
  function SplitLines(buf: seq<Byte>): (s: Split)
    ensures NoDelimiter(s.lines) && LF !in s.rest
    ensures JoinLines(s.lines) + s.rest == buf
    decreases |buf|
  {
    var k := IndexOf(buf, LF);
    if k < 0 then Split([], buf)
    else
      var s := SplitLines(buf[k + 1..]);
      RejoinFirstLine(buf, k, s.lines, s.rest);
      Split([buf[..k]] + s.lines, s.rest)
  }

  lemma JoinLinesCons(l: seq<Byte>, lines: seq<seq<Byte>>)
    ensures JoinLines([l] + lines) == l + [LF] + JoinLines(lines)
  {
    assert ([l] + lines)[1..] == lines;
  }

  lemma RejoinFirstLine(buf: seq<Byte>, k: int, lines: seq<seq<Byte>>, rest: seq<Byte>)
    requires 0 <= k < |buf| && buf[k] == LF
    requires JoinLines(lines) + rest == buf[k + 1..]
    ensures JoinLines([buf[..k]] + lines) + rest == buf
  {
    JoinLinesCons(buf[..k], lines);
    calc {
      JoinLines([buf[..k]] + lines) + rest;
      (buf[..k] + [LF] + JoinLines(lines)) + rest;
      buf[..k] + [LF] + (JoinLines(lines) + rest);
      buf[..k] + [LF] + buf[k + 1..];
      buf;
    }
  }

  /** One pass of the loop: the first complete line is cut off. */
  lemma SplitStep(buf: seq<Byte>, k: int)
    requires k == IndexOf(buf, LF) && k >= 0
    ensures SplitLines(buf) == Split([buf[..k]] + SplitLines(buf[k + 1..]).lines, SplitLines(buf[k + 1..]).rest)
  {
  }

  lemma {:induction false} JoinLinesAppend(a: seq<seq<Byte>>, b: seq<seq<Byte>>)
    ensures JoinLines(a + b) == JoinLines(a) + JoinLines(b)
    decreases |a|
  {
    if a == [] {
      assert a + b == b;
    } else {
      assert (a + b)[1..] == a[1..] + b;
      JoinLinesAppend(a[1..], b);
    }
  }

  /**
   Splitting inverts joining: complete lines without delimiters, followed by
   an unterminated tail, are recovered exactly.
   */
  lemma {:induction false} SplitJoinedLines(lines: seq<seq<Byte>>, tail: seq<Byte>)
    requires NoDelimiter(lines) && LF !in tail
    ensures SplitLines(JoinLines(lines) + tail) == Split(lines, tail)
    decreases |lines|
  {
    var buf := JoinLines(lines) + tail;
    if lines == [] {
      assert buf == tail;
    } else {
      var l := lines[0];
      assert buf == l + [LF] + (JoinLines(lines[1..]) + tail);
      assert buf[|l|] == LF && buf[..|l|] == l;
      assert IndexOf(buf, LF) == |l|;
      assert buf[|l| + 1..] == JoinLines(lines[1..]) + tail;
      SplitStep(buf, |l|);
      SplitJoinedLines(lines[1..], tail);
    }
  }

  /**
   Splitting is compositional: the lines of `x + y` are the lines of `x`
   followed by the lines of `x`'s left-over with `y` appended.
   */
  lemma SplitAppend(x: seq<Byte>, y: seq<Byte>)
    ensures SplitLines(x + y).lines == SplitLines(x).lines + SplitLines(SplitLines(x).rest + y).lines
    ensures SplitLines(x + y).rest == SplitLines(SplitLines(x).rest + y).rest
  {
    var s1 := SplitLines(x);
    var s2 := SplitLines(s1.rest + y);
    JoinLinesAppend(s1.lines, s2.lines);
    Regroup(x, y, JoinLines(s1.lines), s1.rest, JoinLines(s2.lines), s2.rest);
    NoDelimiterAppend(s1.lines, s2.lines);
    SplitJoinedLines(s1.lines + s2.lines, s2.rest);
  }

  lemma Regroup<T>(x: seq<T>, y: seq<T>, a: seq<T>, r: seq<T>, b: seq<T>, r': seq<T>)
    requires x == a + r && r + y == b + r'
    ensures x + y == (a + b) + r'
  {
    calc {
      x + y;
      (a + r) + y;
      a + (r + y);
      a + (b + r');
      (a + b) + r';
    }
  }

  lemma NoDelimiterAppend(a: seq<seq<Byte>>, b: seq<seq<Byte>>)
    requires NoDelimiter(a) && NoDelimiter(b)
    ensures NoDelimiter(a + b)
  {
  }

  function LineCommands(lines: seq<seq<Byte>>): seq<SlideCommand> {
    if lines == [] then [] else OptionToSeq(LineCommand(lines[0])) + LineCommands(lines[1..])
  }

  lemma {:induction false} LineCommandsAppend(a: seq<seq<Byte>>, b: seq<seq<Byte>>)
    ensures LineCommands(a + b) == LineCommands(a) + LineCommands(b)
    decreases |a|
  {
    if a == [] {
      assert a + b == b;
    } else {
      assert (a + b)[1..] == a[1..] + b;
      LineCommandsAppend(a[1..], b);
    }
  }

  datatype Drained = Drained(commands: seq<SlideCommand>, rest: seq<Byte>)

  lemma {:induction false} JoinLinesEndsWithDelimiter(lines: seq<seq<Byte>>)
    requires lines != []
    ensures JoinLines(lines) != [] && JoinLines(lines)[|JoinLines(lines)| - 1] == LF
    decreases |lines|
  {
    if lines[1..] != [] {
      JoinLinesEndsWithDelimiter(lines[1..]);
    }
  }

  /**
   `handleReceivedData`: append the chunk, dispatch the command of every
   complete line, keep what follows the last LF.
   */
  function HandleReceivedData(buffer: seq<Byte>, chunk: seq<Byte>): (d: Drained)
    ensures LF !in d.rest
    ensures |d.rest| <= |buffer| + |chunk|
    ensures d.rest == (buffer + chunk)[|buffer| + |chunk| - |d.rest|..]
    ensures |d.rest| < |buffer| + |chunk| ==> (buffer + chunk)[|buffer| + |chunk| - |d.rest| - 1] == LF
  {
    var s := SplitLines(buffer + chunk);
    assert s.lines != [] ==> JoinLines(s.lines) != [] && JoinLines(s.lines)[|JoinLines(s.lines)| - 1] == LF by {
      if s.lines != [] {
        JoinLinesEndsWithDelimiter(s.lines);
      }
    }
    Drained(LineCommands(s.lines), s.rest)
  }

  /** Feeding chunks one at a time, as successive `handleReceivedData` calls do. */
  function FeedChunks(buffer: seq<Byte>, chunks: seq<seq<Byte>>): Drained
    decreases |chunks|
  {
    if chunks == [] then Drained([], buffer)
    else
      var d := HandleReceivedData(buffer, chunks[0]);
      var e := FeedChunks(d.rest, chunks[1..]);
      Drained(d.commands + e.commands, e.rest)
  }

  function Concat(chunks: seq<seq<Byte>>): seq<Byte> {
    if chunks == [] then [] else chunks[0] + Concat(chunks[1..])
  }

  /**
   Chunking invariance: however a byte stream is split into chunks, the
   commands dispatched (in order) and the final buffer are those of
   delivering it in one piece.
   */
  lemma {:induction false} ChunkingInvariance(buffer: seq<Byte>, chunks: seq<seq<Byte>>)
    requires LF !in buffer
    ensures FeedChunks(buffer, chunks) == HandleReceivedData(buffer, Concat(chunks))
    decreases |chunks|
  {
    if chunks == [] {
      SplitJoinedLines([], buffer);
      assert buffer + Concat(chunks) == JoinLines([]) + buffer;
    } else {
      var d := HandleReceivedData(buffer, chunks[0]);
      ChunkingInvariance(d.rest, chunks[1..]);
      HandleAppend(buffer, chunks[0], Concat(chunks[1..]));
    }
  }

  /** Receiving `c + more` in one call equals receiving `c`, then `more`. */
  lemma HandleAppend(buffer: seq<Byte>, c: seq<Byte>, more: seq<Byte>)
    ensures HandleReceivedData(buffer, c + more).commands
         == HandleReceivedData(buffer, c).commands + HandleReceivedData(HandleReceivedData(buffer, c).rest, more).commands
    ensures HandleReceivedData(buffer, c + more).rest == HandleReceivedData(HandleReceivedData(buffer, c).rest, more).rest
  {
    var x := buffer + c;
    assert buffer + (c + more) == x + more;
    PendingAppend(x, more);
    HandleUnfold(buffer, c);
    HandleUnfold(Pending(x).rest, more);
    HandleUnfold(buffer, c + more);
  }

  /** Splitting `x + y` is splitting `x`, then splitting its remainder followed by `y`. */
  lemma PendingAppend(x: seq<Byte>, y: seq<Byte>)
    ensures Pending(x + y).commands == Pending(x).commands + Pending(Pending(x).rest + y).commands
    ensures Pending(x + y).rest == Pending(Pending(x).rest + y).rest
  {
    SplitAppend(x, y);
    LineCommandsAppend(SplitLines(x).lines, SplitLines(SplitLines(x).rest + y).lines);
  }

  lemma HandleUnfold(buffer: seq<Byte>, chunk: seq<Byte>)
    ensures HandleReceivedData(buffer, chunk)
         == Drained(LineCommands(SplitLines(buffer + chunk).lines), SplitLines(buffer + chunk).rest)
  {
  }

  /** The bytes `send` writes for a sequence of commands. */
  function EncodeAll(cs: seq<SlideCommand>): seq<Byte> {
    if cs == [] then []
    else SyncMessages.Payload(SyncMessages.FromCommand(cs[0]).value) + EncodeAll(cs[1..])
  }

  function TokenLines(cs: seq<SlideCommand>): (lines: seq<seq<Byte>>)
    ensures |lines| == |cs| && NoDelimiter(lines)
  {
    if cs == [] then [] else [SyncMessages.TokenBytes(SyncMessages.FromCommand(cs[0]).value)] + TokenLines(cs[1..])
  }

  lemma {:induction false} EncodeAllIsJoin(cs: seq<SlideCommand>)
    ensures EncodeAll(cs) == JoinLines(TokenLines(cs))
    decreases |cs|
  {
    if cs != [] {
      EncodeAllIsJoin(cs[1..]);
      assert TokenLines(cs)[1..] == TokenLines(cs[1..]);
    }
  }

  lemma TokenLineCommand(c: SlideCommand)
    ensures LineCommand(SyncMessages.TokenBytes(SyncMessages.FromCommand(c).value)) == Some(c)
  {
    TrimNoWhitespaceEdges(SyncMessages.TokenBytes(SyncMessages.FromCommand(c).value));
  }

  lemma {:induction false} TokenLinesCommands(cs: seq<SlideCommand>)
    ensures LineCommands(TokenLines(cs)) == cs
    decreases |cs|
  {
    if cs != [] {
      TokenLineCommand(cs[0]);
      TokenLinesCommands(cs[1..]);
      assert TokenLines(cs)[1..] == TokenLines(cs[1..]);
    }
  }

  /**
   Framer round trip: the payloads of any command sequence, received into an
   empty buffer, dispatch exactly that sequence and leave nothing buffered.
   */
  lemma EncodeAllRoundTrip(cs: seq<SlideCommand>)
    ensures HandleReceivedData([], EncodeAll(cs)) == Drained(cs, [])
  {
    EncodeAllIsJoin(cs);
    TokenLinesCommands(cs);
    SplitJoinedLines(TokenLines(cs), []);
    assert [] + EncodeAll(cs) == JoinLines(TokenLines(cs)) + [];
  }

  /** One payload into an empty buffer dispatches exactly its command. */
  lemma PayloadRoundTrip(c: SlideCommand)
    ensures HandleReceivedData([], SyncMessages.Payload(SyncMessages.FromCommand(c).value)) == Drained([c], [])
  {
    EncodeAllRoundTrip([c]);
    assert EncodeAll([c]) == SyncMessages.Payload(SyncMessages.FromCommand(c).value);
  }

  /**
   A line the token table does not know, or one of the reserved tokens,
   dispatches nothing, yet it is consumed together with its delimiter.
   */
  lemma UnknownLineIsDropped(buffer: seq<Byte>, line: seq<Byte>, tail: seq<Byte>)
    requires LF !in buffer && LF !in line && LF !in tail
    requires LineCommand(buffer + line).None?
    ensures HandleReceivedData(buffer, line + [LF] + tail) == Drained([], tail)
  {
    var l := buffer + line;
    assert LF !in l;
    JoinLinesCons(l, []);
    assert buffer + (line + [LF] + tail) == JoinLines([l]) + tail;
    SplitJoinedLines([l], tail);
    assert LineCommands([l]) == [];
  }

  lemma SplitWithoutDelimiter(buf: seq<Byte>)
    requires IndexOf(buf, LF) < 0
    ensures SplitLines(buf) == Split([], buf)
    ensures LineCommands(SplitLines(buf).lines) == []
  {
  }

  lemma Associative<T>(a: seq<T>, b: seq<T>, c: seq<T>)
    ensures (a + b) + c == a + (b + c)
  {
  }

  /** What is still to be dispatched and kept once the buffer is `buf`. */
  function Pending(buf: seq<Byte>): Drained {
    Drained(LineCommands(SplitLines(buf).lines), SplitLines(buf).rest)
  }

  /** One pass of the loop: the first line's command, then the rest. */
  lemma ReceiveStep(buf: seq<Byte>, k: int)
    requires k == IndexOf(buf, LF) && k >= 0
    ensures Pending(buf).commands == OptionToSeq(LineCommand(buf[..k])) + Pending(buf[k + 1..]).commands
    ensures Pending(buf).rest == Pending(buf[k + 1..]).rest
  {
    SplitStep(buf, k);
    var lines := [buf[..k]] + SplitLines(buf[k + 1..]).lines;
    assert lines[1..] == SplitLines(buf[k + 1..]).lines;
  }

  /**
   The receive loop as written: while the buffer holds a line feed, cut the
   line before it, drop it with its delimiter, and dispatch its command.
   */
  method ReceiveData(buffer: seq<Byte>, data: seq<Byte>) returns (newBuffer: seq<Byte>, dispatched: seq<SlideCommand>)
    ensures LF !in newBuffer
    ensures Drained(dispatched, newBuffer) == HandleReceivedData(buffer, data)
  {
    newBuffer := buffer + data;
    dispatched := [];
    ghost var total := HandleReceivedData(buffer, data);
    assert total == Pending(newBuffer);
    var k := IndexOf(newBuffer, LF);
    while k >= 0
      invariant k == IndexOf(newBuffer, LF)
      invariant total == Drained(dispatched + Pending(newBuffer).commands, Pending(newBuffer).rest)
      decreases |newBuffer|
    {
      var line := newBuffer[..k];
      ReceiveStep(newBuffer, k);
      ghost var before := dispatched;
      newBuffer := newBuffer[k + 1..];
      var c := LineCommand(line);
      if c.Some? {
        dispatched := dispatched + [c.value];
      }
      assert dispatched == before + OptionToSeq(c);
      Associative(before, OptionToSeq(c), Pending(newBuffer).commands);
      k := IndexOf(newBuffer, LF);
    }
    SplitWithoutDelimiter(newBuffer);
  }

  // ----- worked examples -----

  /** Two payloads back to back dispatch their two commands, in order. */
  lemma TwoPayloads(a: SlideCommand, b: SlideCommand)
    ensures HandleReceivedData([], SyncMessages.Payload(SyncMessages.FromCommand(a).value) + SyncMessages.Payload(SyncMessages.FromCommand(b).value))
      == Drained([a, b], [])
  {
    var pa := SyncMessages.Payload(SyncMessages.FromCommand(a).value);
    var pb := SyncMessages.Payload(SyncMessages.FromCommand(b).value);
    assert EncodeAll([a, b]) == pa + pb by {
      assert [a, b][1..] == [b];
      assert [b][1..] == [];
      assert EncodeAll([b]) == pb + EncodeAll([]);
      assert pb + [] == pb;
    }
    EncodeAllRoundTrip([a, b]);
  }

  /** "NEXT\nPREV\n", "NEXT\n", "PR", "EV\n" and "FOO\n" as bytes. */
  const NextPrevBytes: seq<Byte> := [0x4E, 0x45, 0x58, 0x54, LF, 0x50, 0x52, 0x45, 0x56, LF]
  const NextLineBytes: seq<Byte> := [0x4E, 0x45, 0x58, 0x54, LF]
  const PrBytes: seq<Byte> := [0x50, 0x52]
  const EvLineBytes: seq<Byte> := [0x45, 0x56, LF]
  const FooLineBytes: seq<Byte> := [0x46, 0x4F, 0x4F, LF]

  lemma TwoLineBytes()
    ensures NextPrevBytes == SyncMessages.Payload(SyncMessages.FromCommand(Next).value) + SyncMessages.Payload(SyncMessages.FromCommand(Previous).value)
  {
    var data := NextPrevBytes;
    assert SyncMessages.Payload(SyncMessages.Next) == data[..5];
    assert SyncMessages.Payload(SyncMessages.Previous) == data[5..];
    assert data[..5] + data[5..] == data;
  }

  /** "NEXT\nPREV\n" in one chunk dispatches next, then previous. */
  lemma ExampleTwoLinesOneChunk()
    ensures HandleReceivedData([], NextPrevBytes) == Drained([Next, Previous], [])
  {
    TwoLineBytes();
    TwoPayloads(Next, Previous);
  }

  lemma ExampleWholeLine()
    ensures HandleReceivedData([], NextLineBytes) == Drained([Next], [])
  {
    PayloadRoundTrip(Next);
    assert NextLineBytes == SyncMessages.Payload(SyncMessages.Next);
  }

  lemma ExamplePartialLine()
    ensures HandleReceivedData([], PrBytes) == Drained([], PrBytes)
  {
    assert [] + PrBytes == PrBytes;
    SplitWithoutDelimiter(PrBytes);
  }

  lemma ExampleLineCompleted()
    ensures HandleReceivedData(PrBytes, EvLineBytes) == Drained([Previous], [])
  {
    var whole := SyncMessages.Payload(SyncMessages.Previous);
    assert PrBytes + EvLineBytes == whole;
    assert [] + whole == whole;
    HandleUnfold(PrBytes, EvLineBytes);
    HandleUnfold([], whole);
    PayloadRoundTrip(Previous);
  }

  /**
   "NEXT\n", "PR", "EV\n" in three chunks dispatch next, nothing, previous,
   and leave nothing buffered.
   */
  lemma ExampleThreeChunks()
    ensures HandleReceivedData([], NextLineBytes).commands == [Next]
    ensures HandleReceivedData(HandleReceivedData([], NextLineBytes).rest, PrBytes).commands == []
    ensures HandleReceivedData(HandleReceivedData(HandleReceivedData([], NextLineBytes).rest, PrBytes).rest, EvLineBytes) == Drained([Previous], [])
  {
    ExampleWholeLine();
    ExamplePartialLine();
    ExampleLineCompleted();
  }

  /** "FOO\n" dispatches nothing and is consumed entirely. */
  lemma ExampleUnknownToken()
    ensures HandleReceivedData([], FooLineBytes) == Drained([], [])
  {
    var foo: seq<Byte> := [0x46, 0x4F, 0x4F];
    TrimNoWhitespaceEdges(foo);
    assert [] + foo == foo;
    assert LineCommand([] + foo).None?;
    UnknownLineIsDropped([], foo, []);
    assert foo + [LF] + [] == FooLineBytes;
  }
}
