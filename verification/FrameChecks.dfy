/** Frames byte by byte, without reference to how they are written or parsed: what is on the wire, and which buffers are
    refused with which error. */
module FrameChecks {
  import opened Bytes
  import opened Outcomes
  import opened Commands
  import opened Codec
  import Crc
  import WireFormat

  /** A two-byte number, low byte first. */
  function Number(lo: int, hi: int): int {
    lo + 256 * hi
  }

  lemma NumberIsU16(lo: byte, hi: byte)
    ensures U16(lo, hi) == Number(lo, hi)
  {
  }

  // ---------- What is on the wire ----------

  lemma NumberOf(w: u16)
    ensures Number(LE16(w)[0], LE16(w)[1]) == w
  {
  }

  lemma StoredNumber(c: Crc.word)
    ensures Number(Crc.WordBytes(c)[0], Crc.WordBytes(c)[1]) == c as int
  {
    WordParts(c);
  }

  lemma WordParts(c: Crc.word)
    ensures ((c & 0xFF) as Crc.octet) as int + 256 * (((c >> 8) as Crc.octet) as int) == c as int
  {
  }

  function PayloadsLen(cs: seq<Command>): nat {
    if cs == [] then 0 else |Payload(cs[0])| + PayloadsLen(cs[1..])
  }

  lemma {:induction false} CommandsLenIs(cs: seq<Command>)
    ensures CommandsLen(cs) == 3 * |cs| + PayloadsLen(cs)
  {
    hide Payload, PayloadLen;
    if cs != [] {
      PayloadLength(cs[0]);
      CommandsLenIs(cs[1..]);
    }
  }

  /** What `encode` answers: 1024 bytes are the limit, and it is checked before the buffer. */
  lemma EncodeAnswers(f: Frame, capacity: nat)
    ensures var n := 10 + 3 * |f.commands| + PayloadsLen(f.commands);
            && TotalLen(f) == |Encoded(f)| == n
            && EncodeOutcome(f, capacity) ==
               if n > 1024 then Err(FrameTooLarge) else if capacity < n then Err(BufferFull) else Ok(n)
  {
    hide Encoded;
    CommandsLenIs(f.commands);
  }

  /** Header and checksum of an encoded frame, byte by byte. */
  lemma HeaderOnTheWire(f: Frame)
    requires TotalLen(f) <= 1024
    ensures var w := Encoded(f);
            var n := |w|;
            && n >= 10 && w[0] == 0xCB && w[1] == f.version
            && Number(w[2], w[3]) == n && Number(w[4], w[5]) == f.seqNo
            && w[6] == |f.commands| && w[7] == 0
            && w[8..n - 2] == CommandsBytes(f.commands)
            && Number(w[n - 2], w[n - 1]) == Crc.Crc16(w[..n - 2]) as int
  {
    hide Encoded, CommandsBytes, CommandsLen, Crc.Crc16, Crc.WordBytes, U16;
    var w := Encoded(f);
    HeaderFields(f);
    NumberIsU16(w[2], w[3]);
    NumberIsU16(w[4], w[5]);
    var n := |w|;
    StoredNumber(Crc.Crc16(Body(f)));
    var stored := w[n - 2..];
    assert stored[0] == w[n - 2] && stored[1] == w[n - 1];
  }

  /** Every command is its identifier, the low byte of its payload length, and the fields of the table. */
  lemma CommandOnTheWire(c: Command)
    ensures var w := CommandBytes(c);
            var entry := WireFormat.TableEntry(c);
            && |w| == 3 + |Payload(c)| && Number(w[0], w[1]) == entry.id && w[2] == |Payload(c)| % 256
            && w[3..] == WireFormat.TableBytes(entry.fields)
  {
    hide CmdId, Payload, PayloadLen, WireFormat.TableEntry, WireFormat.TableBytes, LE16;
    PayloadLength(c);
    WireFormat.PayloadFollowsTable(c);
    NumberOf(CmdId(c));
  }

  lemma OneCommand(c: Command, cs: seq<Command>)
    ensures CommandsBytes([c] + cs) == CommandBytes(c) + CommandsBytes(cs)
    ensures CommandsBytes([]) == []
  {
    hide CommandBytes;
    assert ([c] + cs)[1..] == cs;
  }

  lemma MoveBytes()
    ensures CommandBytes(Move(Forward, 128)) == [0x01, 0x01, 2, 0x00, 0x80]
  {
  }

  lemma LedBytes()
    ensures CommandBytes(LedPattern(Flow, 0x20, 255, 0, 0)) == [0x02, 0x02, 5, 0x01, 0x20, 0xFF, 0x00, 0x00]
  {
  }

  lemma TwoCommands(a: Command, b: Command)
    ensures CommandsBytes([a, b]) == CommandBytes(a) + CommandBytes(b)
    ensures CommandsLen([a, b]) == |CommandBytes(a)| + |CommandBytes(b)|
  {
    hide CommandBytes;
    assert [a, b] == [a] + [b] && [b] == [b] + [];
    OneCommand(a, [b]);
    OneCommand(b, []);
    assert CommandsLen([a, b]) == |CommandsBytes([a, b])|;
  }

  lemma HeaderBytes(f: Frame)
    requires f.version == 1 && f.seqNo == 0x42 && |f.commands| == 2 && CommandsLen(f.commands) == 13
    ensures Header(f) == [0xCB, 0x01, 23, 0, 0x42, 0x00, 2, 0]
  {
    hide CommandsLen;
  }

  /** A whole frame: move forward at speed 128, then a red LED pattern. */
  lemma MoveAndLed()
    ensures var f := Frame(1, 0x42, [Move(Forward, 128), LedPattern(Flow, 0x20, 255, 0, 0)]);
            && TotalLen(f) == 23
            && Body(f) == [0xCB, 0x01, 23, 0, 0x42, 0x00, 2, 0,
                           0x01, 0x01, 2, 0x00, 0x80,
                           0x02, 0x02, 5, 0x01, 0x20, 0xFF, 0x00, 0x00]
  {
    var a, b := Move(Forward, 128), LedPattern(Flow, 0x20, 255, 0, 0);
    var f := Frame(1, 0x42, [a, b]);
    MoveBytes();
    LedBytes();
    hide CommandBytes, CommandsBytes, CommandsLen, Header;
    TwoCommands(a, b);
    HeaderBytes(f);
  }

  // ---------- Which buffers are refused ----------

  lemma TooShortRefused(buf: seq<byte>)
    requires |buf| < 10
    ensures Decoded(buf) == Err(Incomplete)
  {
  }

  lemma BadMagicRefused(buf: seq<byte>)
    requires |buf| >= 10 && buf[0] != 0xCB
    ensures Decoded(buf) == Err(BadMagic)
  {
  }

  lemma BadVersionRefused(buf: seq<byte>)
    requires |buf| >= 10 && buf[0] == 0xCB && buf[1] != 1
    ensures Decoded(buf) == Err(BadVersion)
  {
  }

  /** Magic byte and version are those of the protocol. */
  predicate Starts(buf: seq<byte>) {
    |buf| >= 10 && buf[0] == 0xCB && buf[1] == 1
  }

  lemma BadLengthRefused(buf: seq<byte>)
    requires Starts(buf) && !(10 <= Number(buf[2], buf[3]) <= 1024)
    ensures Decoded(buf) == Err(BadFrameLength)
  {
    hide DecodeWhole;
  }

  lemma CutOffRefused(buf: seq<byte>)
    requires Starts(buf) && 10 <= Number(buf[2], buf[3]) <= 1024 && |buf| < Number(buf[2], buf[3])
    ensures Decoded(buf) == Err(Incomplete)
  {
    hide DecodeWhole;
  }

  /** As many bytes as the length field says. */
  predicate Complete(buf: seq<byte>) {
    Starts(buf) && 10 <= Number(buf[2], buf[3]) <= 1024 && Number(buf[2], buf[3]) <= |buf|
  }

  lemma WholeOutcome(buf: seq<byte>)
    requires Complete(buf)
    ensures var n := Number(buf[2], buf[3]);
            Decoded(buf) == match DecodeWhole(buf[..n]) case Err(e) => Err(e) case Ok(f) => Ok((f, n))
  {
    hide DecodeWhole;
  }

  lemma TooManyRefused(buf: seq<byte>)
    requires Complete(buf) && buf[6] > 32
    ensures Decoded(buf) == Err(TooManyCommands)
  {
    WholeOutcome(buf);
    hide Decoded, ParseCommands, Crc.Crc16, Crc.WordBytes;
  }

  /** The two bytes before the end, low byte first, are the checksum of everything before them. */
  predicate Checked(buf: seq<byte>)
    requires Complete(buf)
  {
    var n := Number(buf[2], buf[3]);
    Number(buf[n - 2], buf[n - 1]) == Crc.Crc16(buf[..n - 2]) as int
  }

  lemma CheckedExactly(buf: seq<byte>)
    requires Complete(buf)
    ensures var n := Number(buf[2], buf[3]);
            Checked(buf) <==> buf[..n][n - 2..] == Crc.WordBytes(Crc.Crc16(buf[..n][..n - 2]))
  {
    hide Crc.Crc16, Crc.WordBytes;
    var n := Number(buf[2], buf[3]);
    var c := Crc.Crc16(buf[..n - 2]);
    var s := Crc.WordBytes(c);
    StoredNumber(c);
    assert buf[..n][..n - 2] == buf[..n - 2];
    var stored := buf[..n][n - 2..];
    assert stored[0] == buf[n - 2] && stored[1] == buf[n - 1];
    SameNumber(stored[0], stored[1], s[0], s[1]);
    assert stored == [stored[0], stored[1]] && s == [s[0], s[1]];
  }

  lemma SameNumber(a: byte, b: byte, c: byte, d: byte)
    ensures Number(a, b) == Number(c, d) <==> a == c && b == d
  {
  }

  lemma WrongChecksumRefused(buf: seq<byte>)
    requires Complete(buf) && buf[6] <= 32 && !Checked(buf)
    ensures Decoded(buf) == Err(CrcMismatch)
  {
    WholeOutcome(buf);
    CheckedExactly(buf);
    hide Decoded, ParseCommands, Crc.Crc16, Crc.WordBytes, Checked;
  }

  /** Otherwise the outcome is that of the commands between header and checksum. */
  lemma CommandsDecide(buf: seq<byte>)
    requires Complete(buf) && buf[6] <= 32 && Checked(buf)
    ensures var n := Number(buf[2], buf[3]);
            match ParseCommands(buf[8..n - 2], buf[6])
            case Err(e) => Decoded(buf) == Err(e)
            case Ok(cs) => |cs| == buf[6] && Decoded(buf) == Ok((Frame(1, Number(buf[4], buf[5]), cs), n))
  {
    WholeOutcome(buf);
    CheckedExactly(buf);
    var n := Number(buf[2], buf[3]);
    assert buf[..n][8..n - 2] == buf[8..n - 2];
    NumberIsU16(buf[4], buf[5]);
    hide Decoded, ParseCommands, Crc.Crc16, Crc.WordBytes, Checked;
  }

  /** What is true of every buffer that decodes. */
  lemma DecodedSays(buf: seq<byte>)
    requires Decoded(buf).Ok?
    ensures Complete(buf) && buf[6] <= 32 && Checked(buf)
    ensures var (f, n) := Decoded(buf).value;
            && n == Number(buf[2], buf[3]) && f.version == 1 && f.seqNo == Number(buf[4], buf[5])
            && |f.commands| == buf[6] && ParseCommands(buf[8..n - 2], buf[6]) == Ok(f.commands)
  {
    if |buf| < 10 { TooShortRefused(buf); }
    else if buf[0] != 0xCB { BadMagicRefused(buf); }
    else if buf[1] != 1 { BadVersionRefused(buf); }
    else if !(10 <= Number(buf[2], buf[3]) <= 1024) { BadLengthRefused(buf); }
    else if |buf| < Number(buf[2], buf[3]) { CutOffRefused(buf); }
    else if buf[6] > 32 { TooManyRefused(buf); }
    else if !Checked(buf) { WrongChecksumRefused(buf); }
    else { CommandsDecide(buf); }
    hide Decoded, ParseCommands, Checked;
  }

  // ---------- The commands ----------

  /** A command as it lies on the wire. */
  datatype Chunk = Chunk(idLow: byte, idHigh: byte, payload: seq<byte>)

  predicate Short(c: Chunk) {
    |c.payload| <= 255
  }

  function Laid(chunks: seq<Chunk>): seq<byte>
    requires forall c :: c in chunks ==> Short(c)
  {
    if chunks == [] then []
    else
      assert Short(chunks[0]);
      [chunks[0].idLow, chunks[0].idHigh, |chunks[0].payload|] + chunks[0].payload + Laid(chunks[1..])
  }

  function Outcome(c: Chunk): Result<Command> {
    DecodeCommand(c.idLow + 256 * c.idHigh, c.payload)
  }

  lemma ChunkFirst(c: Chunk, rest: seq<byte>, count: nat)
    requires Short(c)
    ensures var s := [c.idLow, c.idHigh, |c.payload|] + c.payload + rest;
            ParseCommands(s, count + 1) ==
              match Outcome(c)
              case Err(e) => Err(e)
              case Ok(command) =>
                match ParseCommands(rest, count) case Err(e) => Err(e) case Ok(more) => Ok([command] + more)
  {
    hide DecodeCommand;
    var s := [c.idLow, c.idHigh, |c.payload|] + c.payload + rest;
    assert s[3..3 + s[2]] == c.payload && s[3 + s[2]..] == rest;
  }

  /** The commands that the chunks stand for. */
  function Read(chunks: seq<Chunk>): (cs: seq<Command>)
    requires forall c :: c in chunks ==> Outcome(c).Ok?
    ensures |cs| == |chunks|
  {
    seq(|chunks|, i requires 0 <= i < |chunks| => Outcome(chunks[i]).value)
  }

  lemma ReadFirst(chunks: seq<Chunk>, more: seq<Command>)
    requires chunks != [] && forall c :: c in chunks ==> Outcome(c).Ok?
    ensures [Outcome(chunks[0]).value] + (Read(chunks[1..]) + more) == Read(chunks) + more
  {
    hide Outcome;
  }

  /** Commands that all decode are read one after another; what follows decides the rest. */
  lemma {:induction false} GoodChunks(chunks: seq<Chunk>, rest: seq<byte>, count: nat)
    requires forall c :: c in chunks ==> Short(c) && Outcome(c).Ok?
    ensures var r := ParseCommands(Laid(chunks) + rest, |chunks| + count);
            match ParseCommands(rest, count)
            case Err(e) => r == Err(e)
            case Ok(more) => r == Ok(Read(chunks) + more)
    decreases |chunks|
  {
    hide ParseCommands, Outcome, Read;
    if chunks == [] {
      assert Laid(chunks) + rest == rest;
      if ParseCommands(rest, count).Ok? {
        assert Read(chunks) + ParseCommands(rest, count).value == ParseCommands(rest, count).value;
      }
    } else {
      var c := chunks[0];
      assert c in chunks;
      var tail := Laid(chunks[1..]) + rest;
      GoodChunks(chunks[1..], rest, count);
      ChunkFirst(c, tail, |chunks| - 1 + count);
      if ParseCommands(rest, count).Ok? {
        ReadFirst(chunks, ParseCommands(rest, count).value);
      }
      assert Laid(chunks) + rest == [c.idLow, c.idHigh, |c.payload|] + c.payload + tail;
    }
  }

  /** The first command that does not decode decides the error. */
  lemma BadChunk(c: Chunk, rest: seq<byte>, count: nat)
    requires Short(c) && Outcome(c).Err? && count > 0
    ensures ParseCommands([c.idLow, c.idHigh, |c.payload|] + c.payload + rest, count) == Err(Outcome(c).error)
  {
    hide Outcome;
    ChunkFirst(c, rest, count - 1);
    hide ParseCommands;
  }

  /** So does a region that ends within a command. */
  lemma CutChunk(s: seq<byte>, count: nat)
    requires count > 0 && (|s| < 3 || 3 + s[2] > |s|)
    ensures ParseCommands(s, count) == Err(Incomplete)
  {
  }

  /** Bytes behind the last command are ignored. */
  lemma SlackIgnored(slack: seq<byte>)
    ensures ParseCommands(slack, 0) == Ok([])
  {
  }
}
