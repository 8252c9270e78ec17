/** Frames on the wire: 8-byte header, commands, CRC; and the total parser for them. */
module Codec {
  import opened Bytes
  import opened Outcomes
  import opened Commands
  import Crc

  const MAGIC: byte := 0xCB
  const VERSION: byte := 0x01
  const HEADER_LEN := 8
  const CRC_LEN := 2
  const MIN_FRAME_LEN := HEADER_LEN + CRC_LEN
  const MAX_FRAME_LEN := 1024
  const MAX_COMMANDS_PER_FRAME := 32

  /** `heapless::Vec<Command, 32>`. */
  type CommandVec = s: seq<Command> | |s| <= MAX_COMMANDS_PER_FRAME

  datatype Frame = Frame(version: byte, seqNo: u16, commands: CommandVec)

  function CommandsLen(cs: seq<Command>): nat {
    if cs == [] then 0 else WireLen(cs[0]) + CommandsLen(cs[1..])
  }

  function TotalLen(f: Frame): nat {
    HEADER_LEN + CommandsLen(f.commands) + CRC_LEN
  }

  // ---------- The encoding ----------

  function CommandBytes(c: Command): (s: seq<byte>)
    ensures |s| == WireLen(c)
  {
    PayloadLength(c);
    LE16(CmdId(c)) + [Truncate8(PayloadLen(c))] + Payload(c)
  }

  function CommandsBytes(cs: seq<Command>): (s: seq<byte>)
    ensures |s| == CommandsLen(cs)
  {
    if cs == [] then [] else CommandBytes(cs[0]) + CommandsBytes(cs[1..])
  }

  function Header(f: Frame): (s: seq<byte>)
    ensures |s| == HEADER_LEN
  {
    [MAGIC, f.version] + LE16(Truncate16(TotalLen(f))) + LE16(f.seqNo) + [Truncate8(|f.commands|), 0]
  }

  /** Everything the checksum covers. */
  function Body(f: Frame): (s: seq<byte>)
    ensures |s| == TotalLen(f) - CRC_LEN
  {
    Header(f) + CommandsBytes(f.commands)
  }

  function Encoded(f: Frame): (s: seq<byte>)
    ensures |s| == TotalLen(f)
  {
    Body(f) + Crc.WordBytes(Crc.Crc16(Body(f)))
  }

  /** What `encode` reports for a buffer of `capacity` bytes. */
  function EncodeOutcome(f: Frame, capacity: nat): Result<nat> {
    if TotalLen(f) > MAX_FRAME_LEN then Err(FrameTooLarge)
    else if capacity < TotalLen(f) then Err(BufferFull)
    else Ok(TotalLen(f))
  }

  // ---------- The parser ----------

  /** `count` commands from the command region `s`; bytes behind them are ignored. */
  function ParseCommands(s: seq<byte>, count: nat): (r: Result<seq<Command>>)
    ensures r.Ok? ==> |r.value| == count
    decreases count
  {
    if count == 0 then Ok([])
    else if |s| < CMD_HEADER_LEN then Err(Incomplete)
    else if CMD_HEADER_LEN + s[2] > |s| then Err(Incomplete)
    else
      match DecodeCommand(U16(s[0], s[1]), s[3..3 + s[2]])
      case Err(e) => Err(e)
      case Ok(c) =>
        match ParseCommands(s[3 + s[2]..], count - 1)
        case Err(e) => Err(e)
        case Ok(cs) => Ok([c] + cs)
  }

  /** The part of `decode` behind the length checks, on exactly the bytes of one frame. */
  function DecodeWhole(w: seq<byte>): Result<Frame>
    requires |w| >= MIN_FRAME_LEN
  {
    var end := |w| - CRC_LEN;
    if w[6] > MAX_COMMANDS_PER_FRAME then Err(TooManyCommands)
    else if w[end..] != Crc.WordBytes(Crc.Crc16(w[..end])) then Err(CrcMismatch)
    else
      match ParseCommands(w[HEADER_LEN..end], w[6])
      case Err(e) => Err(e)
      case Ok(cs) => Ok(Frame(VERSION, U16(w[4], w[5]), cs))
  }

  /** `decode`: a frame and the number of bytes it took, or the first error met. */
  function Decoded(buf: seq<byte>): Result<(Frame, nat)> {
    if |buf| < MIN_FRAME_LEN then Err(Incomplete)
    else if buf[0] != MAGIC then Err(BadMagic)
    else if buf[1] != VERSION then Err(BadVersion)
    else
      var total := U16(buf[2], buf[3]);
      if total < MIN_FRAME_LEN || total > MAX_FRAME_LEN then Err(BadFrameLength)
      else if |buf| < total then Err(Incomplete)
      else
        match DecodeWhole(buf[..total])
        case Err(e) => Err(e)
        case Ok(f) => Ok((f, total))
  }

  // ---------- Round trip ----------

  /** Every payload length survives its one-byte length field. */
  predicate PayloadsFit(cs: seq<Command>) {
    forall i :: 0 <= i < |cs| ==> PayloadLen(cs[i]) <= MAX_PAYLOAD_LEN
  }

  lemma SliceParse(id: u16, payload: seq<byte>, rest: seq<byte>, s: seq<byte>)
    requires |payload| <= MAX_PAYLOAD_LEN && s == LE16(id) + [|payload|] + payload + rest
    ensures s[2] == |payload| && U16(s[0], s[1]) == id
    ensures s[3..3 + s[2]] == payload && s[3 + s[2]..] == rest
  {
    JoinSplit16(id);
  }

  lemma {:induction false} ParseRoundTrip(cs: seq<Command>, slack: seq<byte>)
    requires PayloadsFit(cs)
    ensures ParseCommands(CommandsBytes(cs) + slack, |cs|) == Ok(cs)
    decreases |cs|
  {
    hide DecodeCommand, CommandBytes, PayloadLen, ParseCommands;
    if cs == [] {
      ParseNothing(CommandsBytes(cs) + slack);
    } else {
      ParseRoundTrip(cs[1..], slack);
      var rest := CommandsBytes(cs[1..]) + slack;
      ParseOne(cs[0], rest, |cs| - 1);
      assert CommandsBytes(cs) + slack == CommandBytes(cs[0]) + rest;
      assert [cs[0]] + cs[1..] == cs;
    }
  }

  lemma ParseNothing(s: seq<byte>)
    ensures ParseCommands(s, 0) == Ok([])
  {
  }

  lemma ParseOne(c: Command, rest: seq<byte>, count: nat)
    requires PayloadLen(c) <= MAX_PAYLOAD_LEN && ParseCommands(rest, count).Ok?
    ensures ParseCommands(CommandBytes(c) + rest, count + 1) == Ok([c] + ParseCommands(rest, count).value)
  {
    hide DecodeCommand, CmdId, Payload, PayloadLen, ParseCommands, LE16, U16;
    PayloadLength(c);
    SliceParse(CmdId(c), Payload(c), rest, CommandBytes(c) + rest);
    CommandRoundTrip(c);
    ParseUnfolds(CommandBytes(c) + rest, c, count);
  }

  lemma ParseUnfolds(s: seq<byte>, c: Command, count: nat)
    requires |s| >= CMD_HEADER_LEN && CMD_HEADER_LEN + s[2] <= |s|
    requires DecodeCommand(U16(s[0], s[1]), s[3..3 + s[2]]) == Ok(c) && ParseCommands(s[3 + s[2]..], count).Ok?
    ensures ParseCommands(s, count + 1) == Ok([c] + ParseCommands(s[3 + s[2]..], count).value)
  {
    hide DecodeCommand;
  }

  lemma Layout(version: byte, total: u16, seqNo: u16, count: byte, region: seq<byte>, crc: seq<byte>, w: seq<byte>)
    requires |crc| == 2 && total == HEADER_LEN + |region| + CRC_LEN
    requires w == [MAGIC, version] + LE16(total) + LE16(seqNo) + [count, 0] + region + crc
    ensures w[0] == MAGIC && w[1] == version && U16(w[2], w[3]) == total && U16(w[4], w[5]) == seqNo
    ensures w[6] == count && w[7] == 0
    ensures w[HEADER_LEN..total - CRC_LEN] == region && w[total - CRC_LEN..] == crc
  {
    JoinSplit16(total);
    JoinSplit16(seqNo);
  }

  lemma HeaderFields(f: Frame)
    requires TotalLen(f) <= MAX_FRAME_LEN
    ensures var w := Encoded(f);
            && w[0] == MAGIC && w[1] == f.version
            && U16(w[2], w[3]) == TotalLen(f)
            && U16(w[4], w[5]) == f.seqNo
            && w[6] == |f.commands| && w[7] == 0
            && w[HEADER_LEN..TotalLen(f) - CRC_LEN] == CommandsBytes(f.commands)
            && w[..TotalLen(f) - CRC_LEN] == Body(f)
            && w[TotalLen(f) - CRC_LEN..] == Crc.WordBytes(Crc.Crc16(Body(f)))
  {
    hide CommandsBytes, CommandsLen, Crc.WordBytes, LE16, U16;
    Layout(f.version, TotalLen(f), f.seqNo, |f.commands|, CommandsBytes(f.commands),
           Crc.WordBytes(Crc.Crc16(Body(f))), Encoded(f));
  }

  /** Frames that decoding gives back: the current version and only payloads of at most 255 bytes. */
  predicate Faithful(f: Frame) {
    f.version == VERSION && PayloadsFit(f.commands)
  }

  lemma WholeRoundTrip(f: Frame)
    requires TotalLen(f) <= MAX_FRAME_LEN && Faithful(f)
    ensures DecodeWhole(Encoded(f)) == Ok(f)
  {
    HeaderFields(f);
    ParseRoundTrip(f.commands, []);
    assert CommandsBytes(f.commands) + [] == CommandsBytes(f.commands);
  }

  /** Decoding an encoded frame, whatever bytes follow it, gives the frame and its length back. */
  lemma RoundTrip(f: Frame, rest: seq<byte>)
    requires TotalLen(f) <= MAX_FRAME_LEN && Faithful(f)
    ensures Decoded(Encoded(f) + rest) == Ok((f, TotalLen(f)))
  {
    HeaderFields(f);
    WholeRoundTrip(f);
    assert (Encoded(f) + rest)[..TotalLen(f)] == Encoded(f);
  }

  lemma {:induction false} ParseExplains(s: seq<byte>, count: nat)
    ensures ParseCommands(s, count).Ok? ==>
              PayloadsFit(ParseCommands(s, count).value) && CommandsLen(ParseCommands(s, count).value) <= |s|
    decreases count
  {
    hide DecodeCommand, PayloadLen;
    if count > 0 && |s| >= CMD_HEADER_LEN && CMD_HEADER_LEN + s[2] <= |s| {
      DecodeExplains(U16(s[0], s[1]), s[3..3 + s[2]]);
      ParseExplains(s[3 + s[2]..], count - 1);
    }
  }

  /** What any successful decode yields: a faithful frame that re-encodes into no more bytes. */
  lemma DecodedIsFaithful(buf: seq<byte>)
    requires Decoded(buf).Ok?
    ensures var (f, n) := Decoded(buf).value;
            Faithful(f) && TotalLen(f) <= n <= |buf| && n <= MAX_FRAME_LEN
  {
    var w := buf[..U16(buf[2], buf[3])];
    ParseExplains(w[HEADER_LEN..|w| - CRC_LEN], w[6]);
  }

  /** The round trip holds exactly for faithful frames. */
  lemma RoundTripExactly(f: Frame)
    requires TotalLen(f) <= MAX_FRAME_LEN
    ensures Decoded(Encoded(f)) == Ok((f, TotalLen(f))) <==> Faithful(f)
  {
    if Faithful(f) {
      RoundTrip(f, []);
      assert Encoded(f) + [] == Encoded(f);
    } else if Decoded(Encoded(f)) == Ok((f, TotalLen(f))) {
      DecodedIsFaithful(Encoded(f));
    }
  }

  /** A frame of the current version that `encode` accepts and `decode` does not give back: one firmware chunk with
      at least 252 bytes of data, which with their offset are more than its length byte can say. */
  lemma RoundTripFails(seqNo: u16, offset: u32, data: Data)
    requires |data| >= 252
    ensures var f := Frame(VERSION, seqNo, [OtaChunk(offset, data)]);
            && EncodeOutcome(f, MAX_FRAME_LEN) == Ok(TotalLen(f))
            && Decoded(Encoded(f)) != Ok((f, TotalLen(f)))
  {
    hide Decoded, Encoded;
    var c := OtaChunk(offset, data);
    var f := Frame(VERSION, seqNo, [c]);
    assert CommandsLen([c]) == WireLen(c) + CommandsLen([c][1..]) && [c][1..] == [];
    assert PayloadLen(f.commands[0]) > MAX_PAYLOAD_LEN;
    RoundTripExactly(f);
  }

  /** Whatever was tolerated in the input, re-encoding a decoded frame succeeds within the bytes consumed
      and decodes to the same frame. */
  lemma Canonicalisation(buf: seq<byte>, capacity: nat)
    requires Decoded(buf).Ok? && capacity >= Decoded(buf).value.1
    ensures var (f, n) := Decoded(buf).value;
            && EncodeOutcome(f, capacity) == Ok(TotalLen(f))
            && TotalLen(f) <= n
            && Decoded(Encoded(f)) == Ok((f, TotalLen(f)))
  {
    DecodedIsFaithful(buf);
    RoundTripExactly(Decoded(buf).value.0);
  }

  /** The outcome of a successful decode does not depend on bytes past the consumed ones. */
  lemma TailIrrelevant(buf: seq<byte>, other: seq<byte>)
    requires Decoded(buf).Ok?
    requires var n := Decoded(buf).value.1; n <= |other| && buf[..n] == other[..n]
    ensures Decoded(other) == Decoded(buf)
  {
    hide DecodeWhole;
    var n := Decoded(buf).value.1;
    assert forall i :: 0 <= i < n ==> buf[..n][i] == other[..n][i];
  }

  /** Cut anywhere, an encoded frame asks for more bytes. */
  lemma StrictPrefixIncomplete(f: Frame, k: nat)
    requires TotalLen(f) <= MAX_FRAME_LEN && f.version == VERSION && k < TotalLen(f)
    ensures Decoded(Encoded(f)[..k]) == Err(Incomplete)
  {
    HeaderFields(f);
  }

  // ---------- Streams ----------

  function Stream(fs: seq<Frame>): seq<byte> {
    if fs == [] then [] else Encoded(fs[0]) + Stream(fs[1..])
  }

  datatype Split = Split(frames: seq<Frame>, rest: seq<byte>, stop: BcpError)

  /** Repeated decoding until the first error. */
  function SplitStream(s: seq<byte>): Split
    decreases |s|
  {
    match Decoded(s)
    case Err(e) => Split([], s, e)
    case Ok((f, n)) =>
      var more := SplitStream(s[n..]);
      Split([f] + more.frames, more.rest, more.stop)
  }

  /** Frames laid end to end, with the next frame `g` cut off after `k` bytes, are split back into exactly
      those frames and the unfinished bytes. */
  lemma {:induction false} SelfDelimiting(fs: seq<Frame>, g: Frame, k: nat)
    requires forall i :: 0 <= i < |fs| ==> TotalLen(fs[i]) <= MAX_FRAME_LEN && Faithful(fs[i])
    requires TotalLen(g) <= MAX_FRAME_LEN && g.version == VERSION && k < TotalLen(g)
    ensures SplitStream(Stream(fs) + Encoded(g)[..k]) == Split(fs, Encoded(g)[..k], Incomplete)
    decreases |fs|
  {
    hide Encoded, Decoded, SplitStream;
    var tail := Encoded(g)[..k];
    if fs == [] {
      assert Stream(fs) + tail == tail;
      SplitCut(g, k);
    } else {
      SelfDelimiting(fs[1..], g, k);
      var rest := Stream(fs[1..]) + tail;
      SplitOne(fs[0], rest);
      assert Stream(fs) + tail == Encoded(fs[0]) + rest;
      assert [fs[0]] + fs[1..] == fs;
    }
  }

  lemma SplitCut(g: Frame, k: nat)
    requires TotalLen(g) <= MAX_FRAME_LEN && g.version == VERSION && k < TotalLen(g)
    ensures SplitStream(Encoded(g)[..k]) == Split([], Encoded(g)[..k], Incomplete)
  {
    StrictPrefixIncomplete(g, k);
  }

  lemma SplitOne(f: Frame, rest: seq<byte>)
    requires TotalLen(f) <= MAX_FRAME_LEN && Faithful(f)
    ensures SplitStream(Encoded(f) + rest) ==
              Split([f] + SplitStream(rest).frames, SplitStream(rest).rest, SplitStream(rest).stop)
  {
    RoundTrip(f, rest);
    assert (Encoded(f) + rest)[TotalLen(f)..] == rest;
  }

  /** Two lists of faithful frames with the same bytes are the same list. */
  lemma StreamInjective(fs: seq<Frame>, gs: seq<Frame>)
    requires forall i :: 0 <= i < |fs| ==> TotalLen(fs[i]) <= MAX_FRAME_LEN && Faithful(fs[i])
    requires forall i :: 0 <= i < |gs| ==> TotalLen(gs[i]) <= MAX_FRAME_LEN && Faithful(gs[i])
    requires Stream(fs) == Stream(gs)
    ensures fs == gs
  {
    var ack := Frame(VERSION, 0, []);
    SelfDelimiting(fs, ack, 0);
    SelfDelimiting(gs, ack, 0);
  }
}
