/** The payloads as a table of fields, and what the parser makes of payloads nobody wrote. */
module WireFormat {
  import opened Bytes
  import opened Outcomes
  import opened Commands

  // ---------- The table ----------

  /** A field of one, two or four bytes, signed ones as their two's complement, or a block of bytes. */
  datatype Field = One(v: int) | Two(v: int) | Four(v: int) | Block(bytes: seq<byte>)

  /** Numbers lie least significant byte first. */
  function FieldBytes(f: Field): seq<byte> {
    match f
    case One(v) => [v % 256]
    case Two(v) => [v % 256, v / 256 % 256]
    case Four(v) => [v % 256, v / 256 % 256, v / 65536 % 256, v / 16777216 % 256]
    case Block(bytes) => bytes
  }

  function TableBytes(fields: seq<Field>): seq<byte> {
    if fields == [] then [] else FieldBytes(fields[0]) + TableBytes(fields[1..])
  }

  datatype Entry = Entry(id: u16, fields: seq<Field>)

  function ServoFields(servos: seq<(byte, u16)>): seq<Field> {
    if servos == [] then [] else [One(servos[0].0), Two(servos[0].1)] + ServoFields(servos[1..])
  }

  /** Identifier and fields, in order, of every variant. */
  function TableEntry(c: Command): Entry {
    match c
    case Heartbeat(status, battery, rssi, taskId) => Entry(0x0001, [One(status), One(battery), One(rssi), Two(taskId)])
    case Register(capabilities, firmware) => Entry(0x0002, [Two(capabilities), Block(firmware)])
    case RegAck(shortId, interval) => Entry(0x0003, [Two(shortId), Two(interval)])
    case Ping(timestamp) => Entry(0x0004, [Four(timestamp)])
    case Pong(timestamp) => Entry(0x0005, [Four(timestamp)])
    case Reset(reason) => Entry(0x0006, [One(reason)])
    case OtaStart(size, md5) => Entry(0x0007, [Four(size), Block(md5)])
    case OtaChunk(offset, data) => Entry(0x0008, [Four(offset), Block(data)])
    case OtaDone => Entry(0x0009, [])
    case ErrorReport(code, level, related) => Entry(0x00FF, [Two(code), One(level), Two(related)])
    case Move(direction, speed) => Entry(0x0101, [One(DirectionNumber(direction)), One(speed)])
    case MoveTo(x, y, speed) => Entry(0x0102, [Two(x), Two(y), One(speed)])
    case Stop(emergency) => Entry(0x0103, [One(if emergency then 1 else 0)])
    case ServoSet(id, angle) => Entry(0x0104, [One(id), Two(angle)])
    case ServoBatch(servos) => Entry(0x0105, [One(|servos|)] + ServoFields(servos))
    case HeadPanTilt(pan, tilt) => Entry(0x0106, [One(pan), One(tilt)])
    case LedSet(led, r, g, b) => Entry(0x0201, [Two(led), One(r), One(g), One(b)])
    case LedPattern(mode, speed, r, g, b) => Entry(0x0202, [One(ModeNumber(mode)), One(speed), One(r), One(g), One(b)])
    case LedOff => Entry(0x0203, [])
    case FaceExpr(expr) => Entry(0x0204, [One(FaceNumber(expr))])
    case FaceCustom(data) => Entry(0x0205, [Block(data)])
    case Speak(volume, audio, data) => Entry(0x0206, [One(volume), One(if audio.Opus? then 1 else 0), Block(data)])
    case TtsText(encoding, text) => Entry(0x0207, [One(encoding), Block(text)])
    case EnvData(temp, humi, pressure, light, air) =>
      Entry(0x0301, [Two(temp), Two(humi), Four(pressure), Four(light), Two(air)])
    case MotionEvent(kind, confidence) => Entry(0x0302, [One(kind), One(confidence)])
    case AudioEvent(kind, energy) => Entry(0x0303, [One(kind), Two(energy)])
    case AudioStream(encoding, data) => Entry(0x0304, [One(encoding), Block(data)])
    case ImageSnapshot(image, width, height, data) =>
      Entry(0x0305, [One(if image.Raw? then 1 else 0), Two(width), Two(height), Block(data)])
    case DepthData(width, height, data) => Entry(0x0306, [Two(width), Two(height), Block(data)])
    case TouchEvent(zone, force, state) => Entry(0x0307, [One(zone), One(force), One(state)])
    case ImuData(ax, ay, az, gx, gy, gz) => Entry(0x0308, [Two(ax), Two(ay), Two(az), Two(gx), Two(gy), Two(gz)])
    case Obstacle(side, distance) => Entry(0x0309, [One(side), Two(distance)])
    case TaskAssign(kind, priority, params) => Entry(0x0401, [One(kind), One(priority), Block(params)])
    case TaskStatus(taskId, status, progress) => Entry(0x0402, [Two(taskId), One(status), One(progress)])
    case TaskCancel(taskId) => Entry(0x0403, [Two(taskId)])
    case SwarmForm(formation, coordinates) => Entry(0x0404, [One(formation), Block(coordinates)])
    case PeerMsg(target, data) => Entry(0x0405, [Two(target), Block(data)])
  }

  function DirectionNumber(d: Direction): byte {
    if d.Forward? then 0 else if d.Backward? then 1 else if d.Left? then 2 else if d.Right? then 3
    else if d.RotateLeft? then 4 else 5
  }

  function ModeNumber(m: LedMode): byte {
    if m.Breathing? then 0 else if m.Flow? then 1 else if m.Blink? then 2 else 3
  }

  function FaceNumber(e: FaceExpression): byte {
    if e.Neutral? then 0 else if e.Happy? then 1 else if e.Sad? then 2 else if e.Surprised? then 3
    else if e.Angry? then 4 else 5
  }

  // ---------- Payloads follow the table ----------

  lemma OneField(f: Field)
    ensures TableBytes([f]) == FieldBytes(f)
  {
    hide FieldBytes;
    assert [f][1..] == [];
  }

  lemma TwoFields(f: Field, g: Field)
    ensures TableBytes([f, g]) == FieldBytes(f) + FieldBytes(g)
  {
    hide FieldBytes;
    OneField(g);
    assert [f, g][1..] == [g];
  }

  lemma ThreeFields(f: Field, g: Field, h: Field)
    ensures TableBytes([f, g, h]) == FieldBytes(f) + FieldBytes(g) + FieldBytes(h)
  {
    hide FieldBytes;
    TwoFields(g, h);
    assert [f, g, h][1..] == [g, h];
  }

  lemma MoreFields(f: Field, rest: seq<Field>)
    ensures TableBytes([f] + rest) == FieldBytes(f) + TableBytes(rest)
  {
    hide FieldBytes;
    assert ([f] + rest)[1..] == rest;
  }

  lemma FourFields(f: Field, g: Field, h: Field, i: Field)
    ensures TableBytes([f, g, h, i]) == FieldBytes(f) + FieldBytes(g) + FieldBytes(h) + FieldBytes(i)
  {
    hide FieldBytes;
    ThreeFields(g, h, i);
    MoreFields(f, [g, h, i]);
    assert [f] + [g, h, i] == [f, g, h, i];
  }

  lemma FiveFields(f: Field, g: Field, h: Field, i: Field, j: Field)
    ensures TableBytes([f, g, h, i, j]) ==
              FieldBytes(f) + FieldBytes(g) + FieldBytes(h) + FieldBytes(i) + FieldBytes(j)
  {
    hide FieldBytes;
    FourFields(g, h, i, j);
    MoreFields(f, [g, h, i, j]);
    assert [f] + [g, h, i, j] == [f, g, h, i, j];
  }

  lemma SixFields(f: Field, g: Field, h: Field, i: Field, j: Field, k: Field)
    ensures TableBytes([f, g, h, i, j, k]) ==
              FieldBytes(f) + FieldBytes(g) + FieldBytes(h) + FieldBytes(i) + FieldBytes(j) + FieldBytes(k)
  {
    hide FieldBytes;
    FiveFields(g, h, i, j, k);
    MoreFields(f, [g, h, i, j, k]);
    assert [f] + [g, h, i, j, k] == [f, g, h, i, j, k];
  }

  lemma NumberBytes()
    ensures forall b: byte :: FieldBytes(One(b)) == [b]
    ensures forall b: i8 :: FieldBytes(One(b)) == [Unsigned8(b)]
    ensures forall w: u16 :: FieldBytes(Two(w)) == LE16(w)
    ensures forall w: i16 :: FieldBytes(Two(w)) == LE16(Unsigned16(w))
    ensures forall w: u32 :: FieldBytes(Four(w)) == LE32(w)
  {
    forall w: i16 ensures FieldBytes(Two(w)) == LE16(Unsigned16(w)) {
      SignedBytes(w);
    }
  }

  lemma SignedBytes(w: i16)
    ensures w % 256 == Unsigned16(w) % 256 && w / 256 % 256 == Unsigned16(w) / 256
  {
  }

  ghost predicate Follows(c: Command) {
    CmdId(c) == TableEntry(c).id && Payload(c) == TableBytes(TableEntry(c).fields)
  }

  lemma SystemFollows(c: Command)
    requires IsSystem(c)
    ensures Follows(c)
  {
    NumberBytes();
    hide FieldBytes, TableBytes, LE16, LE32;
    match c {
      case Heartbeat(status, battery, rssi, taskId) => FourFields(One(status), One(battery), One(rssi), Two(taskId));
      case Register(capabilities, firmware) => TwoFields(Two(capabilities), Block(firmware)); BlockBytes(firmware);
      case RegAck(shortId, interval) => TwoFields(Two(shortId), Two(interval));
      case Ping(timestamp) => OneField(Four(timestamp));
      case Pong(timestamp) => OneField(Four(timestamp));
      case Reset(reason) => OneField(One(reason));
      case OtaStart(size, md5) => TwoFields(Four(size), Block(md5)); BlockBytes(md5);
      case OtaChunk(offset, data) => TwoFields(Four(offset), Block(data)); BlockBytes(data);
      case OtaDone => NoFields();
      case ErrorReport(code, level, related) => ThreeFields(Two(code), One(level), Two(related));
      case _ =>
    }
  }

  lemma BlockBytes(bytes: seq<byte>)
    ensures FieldBytes(Block(bytes)) == bytes
  {
  }

  lemma NoFields()
    ensures TableBytes([]) == []
  {
  }

  lemma {:induction false} ServosFollow(servos: seq<(byte, u16)>)
    ensures TableBytes(ServoFields(servos)) == ServoBytes(servos)
  {
    if servos != [] {
      NumberBytes();
      ServosFollow(servos[1..]);
      hide FieldBytes, TableBytes;
      var (id, angle) := servos[0];
      var rest := ServoFields(servos[1..]);
      MoreFields(Two(angle), rest);
      MoreFields(One(id), [Two(angle)] + rest);
      assert [One(id)] + ([Two(angle)] + rest) == [One(id), Two(angle)] + rest;
    } else {
      NoFields();
    }
  }

  lemma DriveFollows(c: Command)
    requires c.Move? || c.MoveTo? || c.Stop?
    ensures Follows(c)
  {
    NumberBytes();
    hide FieldBytes, TableBytes, LE16, LE32;
    match c {
      case Move(direction, speed) => TwoFields(One(DirectionNumber(direction)), One(speed));
      case MoveTo(x, y, speed) => ThreeFields(Two(x), Two(y), One(speed));
      case Stop(emergency) => OneField(One(if emergency then 1 else 0));
      case _ =>
    }
  }

  lemma JointsFollow(c: Command)
    requires c.ServoSet? || c.ServoBatch? || c.HeadPanTilt?
    ensures Follows(c)
  {
    NumberBytes();
    hide FieldBytes, TableBytes, LE16, LE32, ServoBytes, ServoFields;
    match c {
      case ServoSet(id, angle) => TwoFields(One(id), Two(angle));
      case ServoBatch(servos) =>
        ServosFollow(servos);
        MoreFields(One(|servos|), ServoFields(servos));
      case HeadPanTilt(pan, tilt) => TwoFields(One(pan), One(tilt));
      case _ =>
    }
  }

  lemma LightsFollow(c: Command)
    requires c.LedSet? || c.LedPattern? || c.LedOff? || c.FaceExpr?
    ensures Follows(c)
  {
    NumberBytes();
    hide FieldBytes, TableBytes, LE16, LE32;
    match c {
      case LedSet(led, r, g, b) => FourFields(Two(led), One(r), One(g), One(b));
      case LedPattern(mode, speed, r, g, b) => FiveFields(One(ModeNumber(mode)), One(speed), One(r), One(g), One(b));
      case LedOff => NoFields();
      case FaceExpr(expr) => OneField(One(FaceNumber(expr)));
      case _ =>
    }
  }

  lemma SpeakFollows(c: Command)
    requires c.Speak?
    ensures Follows(c)
  {
    NumberBytes();
    BlockBytes(c.data);
    hide FieldBytes, TableBytes, LE16, LE32;
    ThreeFields(One(c.volume), One(if c.audio.Opus? then 1 else 0), Block(c.data));
  }

  lemma TextFollows(c: Command)
    requires c.FaceCustom? || c.TtsText?
    ensures Follows(c)
  {
    NumberBytes();
    BlockBytes(c.data);
    hide FieldBytes, TableBytes, LE16, LE32;
    if c.FaceCustom? {
      OneField(Block(c.data));
    } else {
      TwoFields(One(c.encoding), Block(c.data));
    }
  }

  lemma EnvFollows(c: Command)
    requires c.EnvData?
    ensures Follows(c)
  {
    NumberBytes();
    hide FieldBytes, TableBytes, LE16, LE32;
    FiveFields(Two(c.temp), Two(c.humi), Four(c.pressure), Four(c.light), Two(c.air));
  }

  lemma ImuFollows(c: Command)
    requires c.ImuData?
    ensures Follows(c)
  {
    NumberBytes();
    hide FieldBytes, TableBytes, LE16, LE32;
    SixFields(Two(c.ax), Two(c.ay), Two(c.az), Two(c.gx), Two(c.gy), Two(c.gz));
  }

  lemma EventFollows(c: Command)
    requires c.MotionEvent? || c.AudioEvent? || c.TouchEvent? || c.Obstacle?
    ensures Follows(c)
  {
    NumberBytes();
    hide FieldBytes, TableBytes, LE16, LE32;
    match c {
      case MotionEvent(kind, confidence) => TwoFields(One(kind), One(confidence));
      case AudioEvent(kind, energy) => TwoFields(One(kind), Two(energy));
      case TouchEvent(zone, force, state) => ThreeFields(One(zone), One(force), One(state));
      case Obstacle(side, distance) => TwoFields(One(side), Two(distance));
      case _ =>
    }
  }

  lemma ImageFollows(c: Command)
    requires c.ImageSnapshot?
    ensures Follows(c)
  {
    NumberBytes();
    BlockBytes(c.data);
    hide FieldBytes, TableBytes, LE16, LE32;
    FourFields(One(if c.image.Raw? then 1 else 0), Two(c.width), Two(c.height), Block(c.data));
  }

  lemma MediaFollow(c: Command)
    requires c.AudioStream? || c.DepthData?
    ensures Follows(c)
  {
    NumberBytes();
    BlockBytes(c.data);
    hide FieldBytes, TableBytes, LE16, LE32;
    if c.AudioStream? {
      TwoFields(One(c.encoding), Block(c.data));
    } else {
      ThreeFields(Two(c.width), Two(c.height), Block(c.data));
    }
  }

  lemma TasksFollow(c: Command)
    requires c.TaskAssign? || c.TaskStatus? || c.TaskCancel?
    ensures Follows(c)
  {
    NumberBytes();
    hide FieldBytes, TableBytes, LE16, LE32;
    match c {
      case TaskAssign(kind, priority, params) =>
        BlockBytes(params);
        ThreeFields(One(kind), One(priority), Block(params));
      case TaskStatus(taskId, status, progress) => ThreeFields(Two(taskId), One(status), One(progress));
      case TaskCancel(taskId) => OneField(Two(taskId));
      case _ =>
    }
  }

  lemma SwarmFollows(c: Command)
    requires c.SwarmForm? || c.PeerMsg?
    ensures Follows(c)
  {
    NumberBytes();
    BlockBytes(c.data);
    hide FieldBytes, TableBytes, LE16, LE32;
    match c {
      case SwarmForm(formation, coordinates) => TwoFields(One(formation), Block(coordinates));
      case PeerMsg(target, data) => TwoFields(Two(target), Block(data));
      case _ =>
    }
  }

  /** Identifier and payload of every variant are those of the table, byte by byte. */
  lemma PayloadFollowsTable(c: Command)
    ensures CmdId(c) == TableEntry(c).id
    ensures Payload(c) == TableBytes(TableEntry(c).fields)
  {
    GroupOf(c);
    hide CmdId, Payload, TableEntry, TableBytes;
    if IsSystem(c) { SystemFollows(c); }
    else if c.Move? || c.MoveTo? || c.Stop? { DriveFollows(c); }
    else if IsMotion(c) { JointsFollow(c); }
    else if c.Speak? { SpeakFollows(c); }
    else if c.FaceCustom? || c.TtsText? { TextFollows(c); }
    else if IsExpression(c) { LightsFollow(c); }
    else if c.AudioStream? || c.DepthData? { MediaFollow(c); }
    else if c.ImageSnapshot? { ImageFollows(c); }
    else if c.EnvData? { EnvFollows(c); }
    else if c.ImuData? { ImuFollows(c); }
    else if IsPerception(c) { EventFollows(c); }
    else if c.SwarmForm? || c.PeerMsg? { SwarmFollows(c); }
    else { TasksFollow(c); }
  }

  // ---------- Payloads nobody wrote ----------

  predicate KnownId(id: u16) {
    1 <= id <= 9 || id == 255 || 0x101 <= id <= 0x106 || 0x201 <= id <= 0x207 || 0x301 <= id <= 0x309
    || 0x401 <= id <= 0x405
  }

  /** An identifier outside the command set is refused, whatever the payload. */
  lemma UnknownIdRefused(id: u16, p: seq<byte>)
    requires !KnownId(id)
    ensures DecodeCommand(id, p) == Err(BadCmdId(id))
  {
  }

  /** How many bytes a command needs at least. */
  function LeastLen(id: u16): nat {
    if id == 0x009 || id == 0x203 || id == 0x205 then 0
    else if id == 0x006 || id == 0x103 || id == 0x105 || id == 0x204 || id == 0x207 || id == 0x304 || id == 0x404 then 1
    else if id == 0x101 || id == 0x106 || id == 0x206 || id == 0x302 || id == 0x401 || id == 0x403 || id == 0x405 then 2
    else if id == 0x104 || id == 0x303 || id == 0x307 || id == 0x309 then 3
    else if id == 0x003 || id == 0x004 || id == 0x005 || id == 0x008 || id == 0x306 || id == 0x402 then 4
    else if id == 0x001 || id == 0x0FF || id == 0x102 || id == 0x201 || id == 0x202 || id == 0x305 then 5
    else if id == 0x002 then 6
    else if id == 0x308 then 12
    else if id == 0x301 then 14
    else 20
  }

  /** A payload too short for its command is incomplete. */
  lemma ShortPayloadIncomplete(id: u16, p: seq<byte>)
    requires KnownId(id) && |p| < LeastLen(id)
    ensures DecodeCommand(id, p) == Err(Incomplete)
  {
  }

  /** Commands without a block of bytes or servos at their end. */
  predicate FixedSize(c: Command) {
    !c.OtaChunk? && !c.ServoBatch? && !c.FaceCustom? && !c.Speak? && !c.TtsText? && !c.AudioStream?
    && !c.ImageSnapshot? && !c.DepthData? && !c.TaskAssign? && !c.SwarmForm? && !c.PeerMsg?
  }

  lemma SystemIgnores(id: u16, p: seq<byte>, extra: seq<byte>)
    requires id < 0x100 && id != 8 && DecodeCommand(id, p).Ok?
    ensures DecodeCommand(id, p + extra) == DecodeCommand(id, p)
  {
    if id == 2 { assert (p + extra)[2..6] == p[2..6]; }
    if id == 7 { assert (p + extra)[4..20] == p[4..20]; }
  }

  lemma MotionIgnores(id: u16, p: seq<byte>, extra: seq<byte>)
    requires 0x100 <= id < 0x200 && id != 0x105 && DecodeCommand(id, p).Ok?
    ensures DecodeCommand(id, p + extra) == DecodeCommand(id, p)
  {
  }

  lemma ExpressionIgnores(id: u16, p: seq<byte>, extra: seq<byte>)
    requires 0x200 <= id < 0x205 && DecodeCommand(id, p).Ok?
    ensures DecodeCommand(id, p + extra) == DecodeCommand(id, p)
  {
  }

  lemma PerceptionIgnores(id: u16, p: seq<byte>, extra: seq<byte>)
    requires 0x300 <= id < 0x500 && (id <= 0x303 || 0x307 <= id <= 0x309 || 0x402 <= id <= 0x403)
    requires DecodeCommand(id, p).Ok?
    ensures DecodeCommand(id, p + extra) == DecodeCommand(id, p)
  {
  }

  /** Bytes behind the payload of a command of fixed size are ignored. */
  lemma ExtraBytesIgnored(c: Command, extra: seq<byte>)
    requires FixedSize(c)
    ensures DecodeCommand(CmdId(c), Payload(c) + extra) == Ok(c)
  {
    GroupOf(c);
    CommandRoundTrip(c);
    var id := CmdId(c);
    assert id != 8 && id != 0x105;
    assert id < 0x100 || id < 0x200 || 0x200 <= id < 0x205 || 0x300 <= id <= 0x303 || 0x307 <= id <= 0x309
           || 0x402 <= id <= 0x403;
    hide DecodeCommand, Payload, CmdId;
    if id < 0x100 { SystemIgnores(id, Payload(c), extra); }
    else if id < 0x200 { MotionIgnores(id, Payload(c), extra); }
    else if id < 0x300 { ExpressionIgnores(id, Payload(c), extra); }
    else { PerceptionIgnores(id, Payload(c), extra); }
  }

  /** Any byte but zero asks for an emergency stop. */
  lemma NonZeroStops(p: seq<byte>)
    requires |p| >= 1
    ensures DecodeCommand(0x0103, p) == Ok(Stop(p[0] != 0))
  {
  }

  /** Values outside an enumeration are refused. */
  lemma UnknownValuesRefused(p: seq<byte>)
    ensures |p| >= 2 && p[0] > 5 ==> DecodeCommand(0x0101, p) == Err(BadCmdId(0x0101))
    ensures |p| >= 5 && p[0] > 3 ==> DecodeCommand(0x0202, p) == Err(BadCmdId(0x0202))
    ensures |p| >= 1 && p[0] > 5 ==> DecodeCommand(0x0204, p) == Err(BadCmdId(0x0204))
    ensures |p| >= 2 && p[1] > 1 ==> DecodeCommand(0x0206, p) == Err(BadCmdId(0x0206))
    ensures |p| >= 5 && p[0] > 1 ==> DecodeCommand(0x0305, p) == Err(BadCmdId(0x0305))
  {
  }

  /** The angle lies low byte first. */
  predicate IsServo(servo: (byte, u16), id: int, lo: int, hi: int) {
    servo.0 == id && servo.1 == lo + 256 * hi
  }

  /** What the servo loop makes of any payload. */
  lemma {:induction false} ServoLoop(p: seq<byte>, count: nat, done: seq<(byte, u16)>)
    requires |done| <= count && |done| <= 32
    ensures var r := ServosFrom(p, count, done);
            if count <= 32 && (|done| < count ==> 1 + 3 * count <= |p|)
            then r.Ok? && |r.value| == count
                 && (forall i :: 0 <= i < |done| ==> r.value[i] == done[i])
                 && (forall i :: |done| <= i < count ==> IsServo(r.value[i], p[1 + 3 * i], p[2 + 3 * i], p[3 + 3 * i]))
            else r == Err(if count > 32 && |p| >= 100 then TooManyCommands else Incomplete)
    decreases count - |done|
  {
    if |done| < count {
      var off := 1 + 3 * |done|;
      if off + 3 <= |p| && |done| < 32 {
        ServoLoop(p, count, done + [(p[off], U16(p[off + 1], p[off + 2]))]);
      }
    }
  }

  /** A servo batch is as long as its first byte says, or it is refused: for want of bytes, or for more than 32. */
  lemma ServoBatchOutcome(p: seq<byte>)
    requires |p| >= 1
    ensures var r := DecodeCommand(0x0105, p);
            if p[0] <= 32 && 1 + 3 * p[0] <= |p|
            then r.Ok? && r.value.ServoBatch? && |r.value.servos| == p[0]
                 && forall i :: 0 <= i < p[0] ==> IsServo(r.value.servos[i], p[1 + 3 * i], p[2 + 3 * i], p[3 + 3 * i])
            else r == Err(if p[0] > 32 && |p| >= 100 then TooManyCommands else Incomplete)
  {
    ServoLoop(p, p[0], []);
    hide ServosFrom;
  }
}
