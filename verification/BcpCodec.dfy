/** The codec as it runs: `encode` fills a buffer at a moving cursor, `decode` walks one. */
module BcpCodec {
  import opened Bytes
  import opened Outcomes
  import opened Commands
  import opened Codec
  import Encoder
  import Crc

  lemma {:induction false} CommandsBytesAppend(cs: seq<Command>, i: nat)
    requires i < |cs|
    ensures CommandsBytes(cs[..i + 1]) == CommandsBytes(cs[..i]) + CommandBytes(cs[i])
    decreases i
  {
    hide CommandBytes, PayloadLen;
    if i > 0 {
      CommandsBytesAppend(cs[1..], i - 1);
      assert cs[..i + 1][1..] == cs[1..][..i];
      assert cs[..i][1..] == cs[1..][..i - 1];
    } else {
      assert cs[..1] == [cs[0]] && cs[..0] == [];
    }
  }

  lemma {:induction false} PrefixFits(cs: seq<Command>, i: nat)
    requires i < |cs|
    ensures CommandsLen(cs[..i]) + WireLen(cs[i]) <= CommandsLen(cs)
    decreases i
  {
    hide WireLen;
    if i > 0 {
      PrefixFits(cs[1..], i - 1);
      assert cs[..i][1..] == cs[1..][..i - 1];
    }
  }

  method PutHeader(frame: Frame, total: nat, buf: array<byte>)
    requires total == TotalLen(frame) <= MAX_FRAME_LEN && total <= buf.Length
    modifies buf
    ensures Encoder.Written(buf, 0, Header(frame))
  {
    buf[0] := MAGIC;
    buf[1] := frame.version;
    buf[2] := Truncate16(total) % 0x100;
    buf[3] := Truncate16(total) / 0x100;
    buf[4] := Lo(frame.seqNo);
    buf[5] := Hi(frame.seqNo);
    buf[6] := Truncate8(|frame.commands|);
    buf[7] := 0x00;
  }

  /** One command: identifier, length byte, payload. */
  method PutCommand(c: Command, buf: array<byte>, pos: nat)
    requires pos + WireLen(c) <= buf.Length
    modifies buf
    ensures Encoder.Written(buf, pos, CommandBytes(c))
  {
    hide Payload, PayloadLen, CmdId;
    PayloadLength(c);
    buf[pos] := Lo(CmdId(c));
    buf[pos + 1] := Hi(CmdId(c));
    buf[pos + 2] := Truncate8(PayloadLen(c));
    Encoder.EncodePayload(c, buf, pos + CMD_HEADER_LEN);
  }

  /** Header and commands, written by the moving cursor. */
  method PutBody(frame: Frame, total: nat, buf: array<byte>)
    requires total == TotalLen(frame) <= MAX_FRAME_LEN && total <= buf.Length
    modifies buf
    ensures Encoder.Written(buf, 0, Body(frame))
  {
    hide Header, CommandBytes, WireLen;
    PutHeader(frame, total, buf);
    var pos := HEADER_LEN;
    for i := 0 to |frame.commands|
      invariant pos == HEADER_LEN + CommandsLen(frame.commands[..i]) <= total - CRC_LEN
      invariant Encoder.Written(buf, 0, Header(frame) + CommandsBytes(frame.commands[..i]))
    {
      PrefixFits(frame.commands, i);
      CommandsBytesAppend(frame.commands, i);
      PutCommand(frame.commands[i], buf, pos);
      pos := pos + WireLen(frame.commands[i]);
    }
    assert frame.commands[..|frame.commands|] == frame.commands;
  }

  /** `encode`: on success the buffer starts with the encoded frame and is otherwise unchanged; on failure
      it is not touched. */
  method Encode(frame: Frame, buf: array<byte>) returns (r: Result<nat>)
    modifies buf
    ensures r == EncodeOutcome(frame, buf.Length)
    ensures r.Ok? ==> buf[..] == Encoded(frame) + old(buf[..])[r.value..]
    ensures r.Err? ==> buf[..] == old(buf[..])
  {
    hide Body, Crc.WordBytes;
    var total := TotalLen(frame);
    if total > MAX_FRAME_LEN {
      return Err(FrameTooLarge);
    }
    if buf.Length < total {
      return Err(BufferFull);
    }
    PutBody(frame, total, buf);
    assert buf[..total - CRC_LEN] == Body(frame);
    var crc := Crc.Compute(buf[..total - CRC_LEN], 0xFFFF);
    var stored := Crc.WordBytes(crc);
    buf[total - 2] := stored[0];
    buf[total - 1] := stored[1];
    assert buf[..total] == Body(frame) + stored;
    assert buf[..] == buf[..total] + buf[total..];
    r := Ok(total);
  }

  lemma ServoCase(p: seq<byte>)
    requires |p| >= 1
    ensures DecodeCommand(0x0105, p) == DecodeServos(p)
  {
  }

  /** The servo loop of `decode_command`. */
  method ReadServos(p: seq<byte>) returns (r: Result<Command>)
    requires |p| >= 1
    ensures r == DecodeCommand(0x0105, p)
  {
    ServoCase(p);
    hide DecodeCommand;
    var count := p[0];
    var servos: seq<(byte, u16)> := [];
    for i := 0 to count
      invariant |servos| == i <= 32
      invariant ServosFrom(p, count, servos) == ServosFrom(p, count, [])
    {
      var off := 1 + i * 3;
      if off + 3 > |p| {
        return Err(Incomplete);
      }
      if |servos| == 32 {
        return Err(TooManyCommands);
      }
      servos := servos + [(p[off], U16(p[off + 1], p[off + 2]))];
    }
    r := Ok(ServoBatch(servos));
  }

  method ReadCommand(id: u16, p: seq<byte>) returns (r: Result<Command>)
    ensures r == DecodeCommand(id, p)
  {
    hide DecodeCommand;
    if id == 0x0105 && |p| >= 1 {
      r := ReadServos(p);
    } else {
      r := DecodeCommand(id, p);
    }
  }

  function Prepend(done: seq<Command>, r: Result<seq<Command>>): Result<seq<Command>> {
    match r
    case Err(e) => Err(e)
    case Ok(cs) => Ok(done + cs)
  }

  lemma SliceOfSlice(buf: seq<byte>, from: nat, to: nat, a: nat, b: nat)
    requires from <= to <= |buf| && a <= b <= to - from
    ensures buf[from..to][a..b] == buf[from + a..from + b]
  {
    var s, t := buf[from..to][a..b], buf[from + a..from + b];
    assert |s| == |t|;
    assert forall k :: 0 <= k < |s| ==> s[k] == t[k];
  }

  lemma TailOfSlice(buf: seq<byte>, from: nat, to: nat, a: nat)
    requires from <= to <= |buf| && a <= to - from
    ensures buf[from..to][a..] == buf[from + a..to]
  {
  }

  /** One turn of the command loop: a command and the position behind it. */
  method ReadOne(buf: seq<byte>, start: nat, end: nat, ghost count: nat) returns (r: Result<(Command, nat)>)
    requires start <= end <= |buf| && count > 0
    ensures r.Err? ==> ParseCommands(buf[start..end], count) == Err(r.error)
    ensures r.Ok? ==>
              && start < r.value.1 <= end
              && ParseCommands(buf[start..end], count) ==
                 Prepend([r.value.0], ParseCommands(buf[r.value.1..end], count - 1))
  {
    hide DecodeCommand;
    var pos := start;
    if pos + CMD_HEADER_LEN > end {
      return Err(Incomplete);
    }
    var cmdId := U16(buf[pos], buf[pos + 1]);
    var payloadLen: nat := buf[pos + 2];
    pos := pos + CMD_HEADER_LEN;
    if pos + payloadLen > end {
      return Err(Incomplete);
    }
    SliceOfSlice(buf, start, end, 3, 3 + payloadLen);
    TailOfSlice(buf, start, end, 3 + payloadLen);
    var cmd := ReadCommand(cmdId, buf[pos..pos + payloadLen]);
    if cmd.Err? {
      return Err(cmd.error);
    }
    pos := pos + payloadLen;
    r := Ok((cmd.value, pos));
  }

  /** The command loop of `decode`. */
  method ReadCommands(buf: seq<byte>, end: nat, count: nat) returns (r: Result<seq<Command>>)
    requires HEADER_LEN <= end <= |buf|
    ensures r == ParseCommands(buf[HEADER_LEN..end], count)
  {
    hide ParseCommands, DecodeCommand;
    var pos := HEADER_LEN;
    var commands: seq<Command> := [];
    PrependNone(ParseCommands(buf[HEADER_LEN..end], count));
    for i := 0 to count
      invariant HEADER_LEN <= pos <= end && |commands| == i
      invariant ParseCommands(buf[HEADER_LEN..end], count) ==
                Prepend(commands, ParseCommands(buf[pos..end], count - i))
    {
      var one := ReadOne(buf, pos, end, count - i);
      if one.Err? {
        return Err(one.error);
      }
      PrependOne(commands, one.value.0, ParseCommands(buf[one.value.1..end], count - i - 1));
      commands := commands + [one.value.0];
      pos := one.value.1;
    }
    ParseNothing(buf[pos..end]);
    r := Ok(commands);
    assert commands + [] == commands;
  }

  lemma PrependNone(r: Result<seq<Command>>)
    ensures Prepend([], r) == r
  {
    if r.Ok? {
      assert [] + r.value == r.value;
    }
  }

  lemma PrependOne(done: seq<Command>, c: Command, r: Result<seq<Command>>)
    ensures Prepend(done, Prepend([c], r)) == Prepend(done + [c], r)
  {
    if r.Ok? {
      assert done + ([c] + r.value) == (done + [c]) + r.value;
    }
  }

  /** What `decode` does once it has the length: command count, checksum, commands. */
  method ReadFrame(buf: seq<byte>, total: nat) returns (r: Result<Frame>)
    requires MIN_FRAME_LEN <= total <= |buf|
    ensures r == DecodeWhole(buf[..total])
  {
    hide ParseCommands, Crc.WordBytes;
    ghost var w := buf[..total];
    var seqNo := U16(buf[4], buf[5]);
    var cmdCount := buf[6];
    if cmdCount > MAX_COMMANDS_PER_FRAME {
      return Err(TooManyCommands);
    }
    var expected := [buf[total - 2], buf[total - 1]];
    var computed := Crc.Compute(buf[..total - CRC_LEN], 0xFFFF);
    assert w[..total - CRC_LEN] == buf[..total - CRC_LEN] && w[total - CRC_LEN..] == expected;
    if expected != Crc.WordBytes(computed) {
      return Err(CrcMismatch);
    }
    assert w[HEADER_LEN..total - CRC_LEN] == buf[HEADER_LEN..total - CRC_LEN];
    var commands := ReadCommands(buf, total - CRC_LEN, cmdCount);
    if commands.Err? {
      return Err(commands.error);
    }
    ParsedCount(buf[HEADER_LEN..total - CRC_LEN], cmdCount);
    r := Ok(Frame(VERSION, seqNo, commands.value));
  }

  /** `decode` computes the parser of the specification on every byte sequence. */
  method Decode(buf: seq<byte>) returns (r: Result<(Frame, nat)>)
    ensures r == Decoded(buf)
  {
    hide DecodeWhole;
    if |buf| < MIN_FRAME_LEN {
      return Err(Incomplete);
    }
    if buf[0] != MAGIC {
      return Err(BadMagic);
    }
    if buf[1] != VERSION {
      return Err(BadVersion);
    }
    var total := U16(buf[2], buf[3]);
    if total < MIN_FRAME_LEN || total > MAX_FRAME_LEN {
      return Err(BadFrameLength);
    }
    if |buf| < total {
      return Err(Incomplete);
    }
    var frame := ReadFrame(buf, total);
    r := match frame case Err(e) => Err(e) case Ok(f) => Ok((f, total));
  }

  lemma ParsedCount(s: seq<byte>, count: nat)
    ensures ParseCommands(s, count).Ok? ==> |ParseCommands(s, count).value| == count
  {
  }
}
