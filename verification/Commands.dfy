/** The command set: identifiers, sizes and byte layout of every variant. */
module Commands {
  import opened Bytes
  import opened Outcomes

  const CMD_HEADER_LEN := 3
  const MAX_PAYLOAD_LEN := 255

  /** `heapless::Vec<u8, 255>`. */
  type Data = s: seq<byte> | |s| <= 255
  /** `heapless::Vec<(u8, u16), 32>`. */
  type Servos = s: seq<(byte, u16)> | |s| <= 32
  type Firmware = s: seq<byte> | |s| == 4 witness [0, 0, 0, 0]
  type Md5 = s: seq<byte> | |s| == 16 witness seq(16, _ => 0)

  datatype Direction = Forward | Backward | Left | Right | RotateLeft | RotateRight
  datatype AudioFormat = Pcm | Opus
  datatype ImageFormat = Jpeg | Raw
  datatype LedMode = Breathing | Flow | Blink | Rainbow
  datatype FaceExpression = Neutral | Happy | Sad | Surprised | Angry | Confused

  datatype Command =
    // System
    | Heartbeat(status: byte, battery: byte, rssi: i8, taskId: u16)
    | Register(capabilities: u16, firmwareVersion: Firmware)
    | RegAck(shortId: u16, heartbeatInterval: u16)
    | Ping(timestamp: u32)
    | Pong(timestamp: u32)
    | Reset(reasonCode: byte)
    | OtaStart(size: u32, md5: Md5)
    | OtaChunk(offset: u32, data: Data)
    | OtaDone
    | ErrorReport(errorCode: u16, level: byte, relatedSeqNo: u16)
    // Motion
    | Move(direction: Direction, speed: byte)
    | MoveTo(x: i16, y: i16, speed: byte)
    | Stop(emergency: bool)
    | ServoSet(id: byte, angle: u16)
    | ServoBatch(servos: Servos)
    | HeadPanTilt(pan: byte, tilt: byte)
    // Expression
    | LedSet(led: u16, r: byte, g: byte, b: byte)
    | LedPattern(mode: LedMode, speed: byte, r: byte, g: byte, b: byte)
    | LedOff
    | FaceExpr(expr: FaceExpression)
    | FaceCustom(data: Data)
    | Speak(volume: byte, audio: AudioFormat, data: Data)
    | TtsText(encoding: byte, data: Data)
    // Perception
    | EnvData(temp: i16, humi: u16, pressure: u32, light: u32, air: u16)
    | MotionEvent(detectType: byte, confidence: byte)
    | AudioEvent(eventType: byte, energy: u16)
    | AudioStream(encoding: byte, data: Data)
    | ImageSnapshot(image: ImageFormat, width: u16, height: u16, data: Data)
    | DepthData(width: u16, height: u16, data: Data)
    | TouchEvent(zone: byte, force: byte, state: byte)
    | ImuData(ax: i16, ay: i16, az: i16, gx: i16, gy: i16, gz: i16)
    | Obstacle(side: byte, distance: u16)
    // Cluster
    | TaskAssign(taskType: byte, priority: byte, data: Data)
    | TaskStatus(taskId: u16, status: byte, progress: byte)
    | TaskCancel(taskId: u16)
    | SwarmForm(formationId: byte, data: Data)
    | PeerMsg(target: u16, data: Data)

  function CmdId(c: Command): u16 {
    match c
    case Heartbeat(_, _, _, _) => 0x0001
    case Register(_, _) => 0x0002
    case RegAck(_, _) => 0x0003
    case Ping(_) => 0x0004
    case Pong(_) => 0x0005
    case Reset(_) => 0x0006
    case OtaStart(_, _) => 0x0007
    case OtaChunk(_, _) => 0x0008
    case OtaDone => 0x0009
    case ErrorReport(_, _, _) => 0x00FF
    case Move(_, _) => 0x0101
    case MoveTo(_, _, _) => 0x0102
    case Stop(_) => 0x0103
    case ServoSet(_, _) => 0x0104
    case ServoBatch(_) => 0x0105
    case HeadPanTilt(_, _) => 0x0106
    case LedSet(_, _, _, _) => 0x0201
    case LedPattern(_, _, _, _, _) => 0x0202
    case LedOff => 0x0203
    case FaceExpr(_) => 0x0204
    case FaceCustom(_) => 0x0205
    case Speak(_, _, _) => 0x0206
    case TtsText(_, _) => 0x0207
    case EnvData(_, _, _, _, _) => 0x0301
    case MotionEvent(_, _) => 0x0302
    case AudioEvent(_, _) => 0x0303
    case AudioStream(_, _) => 0x0304
    case ImageSnapshot(_, _, _, _) => 0x0305
    case DepthData(_, _, _) => 0x0306
    case TouchEvent(_, _, _) => 0x0307
    case ImuData(_, _, _, _, _, _) => 0x0308
    case Obstacle(_, _) => 0x0309
    case TaskAssign(_, _, _) => 0x0401
    case TaskStatus(_, _, _) => 0x0402
    case TaskCancel(_) => 0x0403
    case SwarmForm(_, _) => 0x0404
    case PeerMsg(_, _) => 0x0405
  }

  function PayloadLen(c: Command): nat {
    match c
    case Heartbeat(_, _, _, _) => 5
    case Register(_, _) => 2 + 4
    case RegAck(_, _) => 4
    case Ping(_) => 4
    case Pong(_) => 4
    case Reset(_) => 1
    case OtaStart(_, _) => 20
    case OtaChunk(_, data) => 4 + |data|
    case OtaDone => 0
    case ErrorReport(_, _, _) => 5
    case Move(_, _) => 2
    case MoveTo(_, _, _) => 5
    case Stop(_) => 1
    case ServoSet(_, _) => 3
    case ServoBatch(servos) => 1 + |servos| * 3
    case HeadPanTilt(_, _) => 2
    case LedSet(_, _, _, _) => 5
    case LedPattern(_, _, _, _, _) => 5
    case LedOff => 0
    case FaceExpr(_) => 1
    case FaceCustom(data) => |data|
    case Speak(_, _, data) => 2 + |data|
    case TtsText(_, data) => 1 + |data|
    case EnvData(_, _, _, _, _) => 14
    case MotionEvent(_, _) => 2
    case AudioEvent(_, _) => 3
    case AudioStream(_, data) => 1 + |data|
    case ImageSnapshot(_, _, _, data) => 5 + |data|
    case DepthData(_, _, data) => 4 + |data|
    case TouchEvent(_, _, _) => 3
    case ImuData(_, _, _, _, _, _) => 12
    case Obstacle(_, _) => 3
    case TaskAssign(_, _, data) => 2 + |data|
    case TaskStatus(_, _, _) => 4
    case TaskCancel(_) => 2
    case SwarmForm(_, data) => 1 + |data|
    case PeerMsg(_, data) => 2 + |data|
  }

  function WireLen(c: Command): nat {
    CMD_HEADER_LEN + PayloadLen(c)
  }

  // ---------- Enumerations on the wire ----------

  function DirectionCode(d: Direction): byte {
    match d
    case Forward => 0
    case Backward => 1
    case Left => 2
    case Right => 3
    case RotateLeft => 4
    case RotateRight => 5
  }

  function DirectionOf(v: byte): Option<Direction> {
    match v
    case 0 => Some(Forward)
    case 1 => Some(Backward)
    case 2 => Some(Left)
    case 3 => Some(Right)
    case 4 => Some(RotateLeft)
    case 5 => Some(RotateRight)
    case _ => None
  }

  function AudioCode(f: AudioFormat): byte {
    match f
    case Pcm => 0
    case Opus => 1
  }

  function AudioOf(v: byte): Option<AudioFormat> {
    match v
    case 0 => Some(Pcm)
    case 1 => Some(Opus)
    case _ => None
  }

  function ImageCode(f: ImageFormat): byte {
    match f
    case Jpeg => 0
    case Raw => 1
  }

  function ImageOf(v: byte): Option<ImageFormat> {
    match v
    case 0 => Some(Jpeg)
    case 1 => Some(Raw)
    case _ => None
  }

  function LedModeCode(m: LedMode): byte {
    match m
    case Breathing => 0
    case Flow => 1
    case Blink => 2
    case Rainbow => 3
  }

  function LedModeOf(v: byte): Option<LedMode> {
    match v
    case 0 => Some(Breathing)
    case 1 => Some(Flow)
    case 2 => Some(Blink)
    case 3 => Some(Rainbow)
    case _ => None
  }

  function FaceCode(e: FaceExpression): byte {
    match e
    case Neutral => 0
    case Happy => 1
    case Sad => 2
    case Surprised => 3
    case Angry => 4
    case Confused => 5
  }

  function FaceOf(v: byte): Option<FaceExpression> {
    match v
    case 0 => Some(Neutral)
    case 1 => Some(Happy)
    case 2 => Some(Sad)
    case 3 => Some(Surprised)
    case 4 => Some(Angry)
    case 5 => Some(Confused)
    case _ => None
  }

  // ---------- Groups ----------

  predicate IsSystem(c: Command) {
    c.Heartbeat? || c.Register? || c.RegAck? || c.Ping? || c.Pong? || c.Reset? || c.OtaStart? || c.OtaChunk?
    || c.OtaDone? || c.ErrorReport?
  }

  predicate IsMotion(c: Command) {
    c.Move? || c.MoveTo? || c.Stop? || c.ServoSet? || c.ServoBatch? || c.HeadPanTilt?
  }

  predicate IsExpression(c: Command) {
    c.LedSet? || c.LedPattern? || c.LedOff? || c.FaceExpr? || c.FaceCustom? || c.Speak? || c.TtsText?
  }

  predicate IsPerception(c: Command) {
    c.EnvData? || c.MotionEvent? || c.AudioEvent? || c.AudioStream? || c.ImageSnapshot? || c.DepthData?
    || c.TouchEvent? || c.ImuData? || c.Obstacle?
  }

  predicate IsCluster(c: Command) {
    c.TaskAssign? || c.TaskStatus? || c.TaskCancel? || c.SwarmForm? || c.PeerMsg?
  }

  // ---------- Payload layout ----------

  function ServoBytes(servos: seq<(byte, u16)>): (s: seq<byte>)
    ensures |s| == 3 * |servos|
  {
    if servos == [] then [] else
      [servos[0].0, Lo(servos[0].1), Hi(servos[0].1)] + ServoBytes(servos[1..])
  }

  /** The payload bytes of a command. */
  function Payload(c: Command): seq<byte> {
    match c
    case Heartbeat(status, battery, rssi, taskId) => [status, battery, Unsigned8(rssi)] + LE16(taskId)
    case Register(caps, fw) => LE16(caps) + fw
    case RegAck(shortId, interval) => LE16(shortId) + LE16(interval)
    case Ping(timestamp) => LE32(timestamp)
    case Pong(timestamp) => LE32(timestamp)
    case Reset(reason) => [reason]
    case OtaStart(size, md5) => LE32(size) + md5
    case OtaChunk(offset, data) => LE32(offset) + data
    case OtaDone => []
    case ErrorReport(code, level, related) => LE16(code) + [level] + LE16(related)
    case Move(direction, speed) => [DirectionCode(direction), speed]
    case MoveTo(x, y, speed) => LE16(Unsigned16(x)) + LE16(Unsigned16(y)) + [speed]
    case Stop(emergency) => [if emergency then 1 else 0]
    case ServoSet(id, angle) => [id] + LE16(angle)
    case ServoBatch(servos) => [Truncate8(|servos|)] + ServoBytes(servos)
    case HeadPanTilt(pan, tilt) => [pan, tilt]
    case LedSet(led, r, g, b) => LE16(led) + [r, g, b]
    case LedPattern(mode, speed, r, g, b) => [LedModeCode(mode), speed, r, g, b]
    case LedOff => []
    case FaceExpr(expr) => [FaceCode(expr)]
    case FaceCustom(data) => data
    case Speak(volume, audio, data) => [volume, AudioCode(audio)] + data
    case TtsText(encoding, data) => [encoding] + data
    case EnvData(temp, humi, pressure, light, air) =>
      LE16(Unsigned16(temp)) + LE16(humi) + LE32(pressure) + LE32(light) + LE16(air)
    case MotionEvent(detectType, confidence) => [detectType, confidence]
    case AudioEvent(eventType, energy) => [eventType] + LE16(energy)
    case AudioStream(encoding, data) => [encoding] + data
    case ImageSnapshot(image, width, height, data) => [ImageCode(image)] + LE16(width) + LE16(height) + data
    case DepthData(width, height, data) => LE16(width) + LE16(height) + data
    case TouchEvent(zone, force, state) => [zone, force, state]
    case ImuData(ax, ay, az, gx, gy, gz) =>
      LE16(Unsigned16(ax)) + LE16(Unsigned16(ay)) + LE16(Unsigned16(az))
      + LE16(Unsigned16(gx)) + LE16(Unsigned16(gy)) + LE16(Unsigned16(gz))
    case Obstacle(side, distance) => [side] + LE16(distance)
    case TaskAssign(taskType, priority, data) => [taskType, priority] + data
    case TaskStatus(taskId, status, progress) => LE16(taskId) + [status, progress]
    case TaskCancel(taskId) => LE16(taskId)
    case SwarmForm(formationId, data) => [formationId] + data
    case PeerMsg(target, data) => LE16(target) + data
  }

  lemma SystemLength(c: Command)
    requires IsSystem(c) || IsMotion(c)
    ensures |Payload(c)| == PayloadLen(c)
  {
    hide LE16, LE32, ServoBytes;
  }

  lemma ExpressionLength(c: Command)
    requires IsExpression(c) || IsCluster(c)
    ensures |Payload(c)| == PayloadLen(c)
  {
    hide LE16;
  }

  lemma PerceptionLength(c: Command)
    requires IsPerception(c)
    ensures |Payload(c)| == PayloadLen(c)
  {
    hide LE16, LE32;
  }

  /** The declared length is the number of bytes. */
  lemma PayloadLength(c: Command)
    ensures |Payload(c)| == PayloadLen(c)
  {
    hide Payload, PayloadLen;
    if IsSystem(c) || IsMotion(c) { SystemLength(c); }
    else if IsPerception(c) { PerceptionLength(c); }
    else { ExpressionLength(c); }
  }

  // ---------- Parsing a payload ----------

  /** `extend_from_slice` into an empty vector of capacity 255. */
  function DataOf(s: seq<byte>): Result<Data> {
    if |s| > 255 then Err(PayloadTooLarge) else Ok(s)
  }

  /** The servo loop: `count` triples starting at offset `1 + 3 * |done|`. */
  function ServosFrom(p: seq<byte>, count: nat, done: seq<(byte, u16)>): Result<seq<(byte, u16)>>
    decreases count - |done|
  {
    if |done| >= count then Ok(done)
    else
      var off := 1 + 3 * |done|;
      if off + 3 > |p| then Err(Incomplete)
      else if |done| >= 32 then Err(TooManyCommands)
      else ServosFrom(p, count, done + [(p[off], U16(p[off + 1], p[off + 2]))])
  }

  lemma {:induction false} ServosFromFits(p: seq<byte>, count: nat, done: seq<(byte, u16)>)
    requires |done| <= 32 && |done| <= count
    ensures ServosFrom(p, count, done).Ok? ==>
              |ServosFrom(p, count, done).value| == count <= 32 && (|done| < count ==> 1 + 3 * count <= |p|)
    decreases count - |done|
  {
    if |done| < count {
      var off := 1 + 3 * |done|;
      if off + 3 <= |p| && |done| < 32 {
        ServosFromFits(p, count, done + [(p[off], U16(p[off + 1], p[off + 2]))]);
      }
    }
  }

  function DecodeSystem(id: u16, p: seq<byte>): Result<Command> {
    match id
    case 0x0001 => if |p| < 5 then Err(Incomplete) else Ok(Heartbeat(p[0], p[1], Signed8(p[2]), U16(p[3], p[4])))
    case 0x0002 => if |p| < 6 then Err(Incomplete) else Ok(Register(U16(p[0], p[1]), p[2..6]))
    case 0x0003 => if |p| < 4 then Err(Incomplete) else Ok(RegAck(U16(p[0], p[1]), U16(p[2], p[3])))
    case 0x0004 => if |p| < 4 then Err(Incomplete) else Ok(Ping(U32(p[0], p[1], p[2], p[3])))
    case 0x0005 => if |p| < 4 then Err(Incomplete) else Ok(Pong(U32(p[0], p[1], p[2], p[3])))
    case 0x0006 => if |p| < 1 then Err(Incomplete) else Ok(Reset(p[0]))
    case 0x0007 => if |p| < 20 then Err(Incomplete) else Ok(OtaStart(U32(p[0], p[1], p[2], p[3]), p[4..20]))
    case 0x0008 =>
      if |p| < 4 then Err(Incomplete)
      else (match DataOf(p[4..]) case Err(e) => Err(e) case Ok(d) => Ok(OtaChunk(U32(p[0], p[1], p[2], p[3]), d)))
    case 0x0009 => Ok(OtaDone)
    case 0x00FF => if |p| < 5 then Err(Incomplete) else Ok(ErrorReport(U16(p[0], p[1]), p[2], U16(p[3], p[4])))
    case _ => Err(BadCmdId(id))
  }

  function DecodeMotion(id: u16, p: seq<byte>): Result<Command> {
    match id
    case 0x0101 =>
      if |p| < 2 then Err(Incomplete)
      else (match DirectionOf(p[0]) case None => Err(BadCmdId(id)) case Some(d) => Ok(Move(d, p[1])))
    case 0x0102 => if |p| < 5 then Err(Incomplete) else Ok(MoveTo(I16(p[0], p[1]), I16(p[2], p[3]), p[4]))
    case 0x0103 => if |p| < 1 then Err(Incomplete) else Ok(Stop(p[0] != 0))
    case 0x0104 => if |p| < 3 then Err(Incomplete) else Ok(ServoSet(p[0], U16(p[1], p[2])))
    case 0x0105 => if |p| < 1 then Err(Incomplete) else DecodeServos(p)
    case 0x0106 => if |p| < 2 then Err(Incomplete) else Ok(HeadPanTilt(p[0], p[1]))
    case _ => Err(BadCmdId(id))
  }

  function DecodeServos(p: seq<byte>): Result<Command>
    requires |p| >= 1
  {
    ServosFromFits(p, p[0], []);
    match ServosFrom(p, p[0], [])
    case Err(e) => Err(e)
    case Ok(servos) => Ok(ServoBatch(servos))
  }

  function DecodeExpression(id: u16, p: seq<byte>): Result<Command> {
    match id
    case 0x0201 => if |p| < 5 then Err(Incomplete) else Ok(LedSet(U16(p[0], p[1]), p[2], p[3], p[4]))
    case 0x0202 =>
      if |p| < 5 then Err(Incomplete)
      else (match LedModeOf(p[0]) case None => Err(BadCmdId(id))
            case Some(m) => Ok(LedPattern(m, p[1], p[2], p[3], p[4])))
    case 0x0203 => Ok(LedOff)
    case 0x0204 =>
      if |p| < 1 then Err(Incomplete)
      else (match FaceOf(p[0]) case None => Err(BadCmdId(id)) case Some(e) => Ok(FaceExpr(e)))
    case 0x0205 => (match DataOf(p) case Err(e) => Err(e) case Ok(d) => Ok(FaceCustom(d)))
    case 0x0206 =>
      if |p| < 2 then Err(Incomplete)
      else (match AudioOf(p[1]) case None => Err(BadCmdId(id))
            case Some(f) => match DataOf(p[2..]) case Err(e) => Err(e) case Ok(d) => Ok(Speak(p[0], f, d)))
    case 0x0207 =>
      if |p| < 1 then Err(Incomplete)
      else (match DataOf(p[1..]) case Err(e) => Err(e) case Ok(d) => Ok(TtsText(p[0], d)))
    case _ => Err(BadCmdId(id))
  }

  function DecodePerception(id: u16, p: seq<byte>): Result<Command> {
    match id
    case 0x0301 =>
      if |p| < 14 then Err(Incomplete)
      else Ok(EnvData(I16(p[0], p[1]), U16(p[2], p[3]), U32(p[4], p[5], p[6], p[7]),
                      U32(p[8], p[9], p[10], p[11]), U16(p[12], p[13])))
    case 0x0302 => if |p| < 2 then Err(Incomplete) else Ok(MotionEvent(p[0], p[1]))
    case 0x0303 => if |p| < 3 then Err(Incomplete) else Ok(AudioEvent(p[0], U16(p[1], p[2])))
    case 0x0304 =>
      if |p| < 1 then Err(Incomplete)
      else (match DataOf(p[1..]) case Err(e) => Err(e) case Ok(d) => Ok(AudioStream(p[0], d)))
    case 0x0305 =>
      if |p| < 5 then Err(Incomplete)
      else (match ImageOf(p[0]) case None => Err(BadCmdId(id))
            case Some(f) => match DataOf(p[5..]) case Err(e) => Err(e)
            case Ok(d) => Ok(ImageSnapshot(f, U16(p[1], p[2]), U16(p[3], p[4]), d)))
    case 0x0306 =>
      if |p| < 4 then Err(Incomplete)
      else (match DataOf(p[4..]) case Err(e) => Err(e) case Ok(d) => Ok(DepthData(U16(p[0], p[1]), U16(p[2], p[3]), d)))
    case 0x0307 => if |p| < 3 then Err(Incomplete) else Ok(TouchEvent(p[0], p[1], p[2]))
    case 0x0308 =>
      if |p| < 12 then Err(Incomplete)
      else Ok(ImuData(I16(p[0], p[1]), I16(p[2], p[3]), I16(p[4], p[5]),
                      I16(p[6], p[7]), I16(p[8], p[9]), I16(p[10], p[11])))
    case 0x0309 => if |p| < 3 then Err(Incomplete) else Ok(Obstacle(p[0], U16(p[1], p[2])))
    case _ => Err(BadCmdId(id))
  }

  function DecodeCluster(id: u16, p: seq<byte>): Result<Command> {
    match id
    case 0x0401 =>
      if |p| < 2 then Err(Incomplete)
      else (match DataOf(p[2..]) case Err(e) => Err(e) case Ok(d) => Ok(TaskAssign(p[0], p[1], d)))
    case 0x0402 => if |p| < 4 then Err(Incomplete) else Ok(TaskStatus(U16(p[0], p[1]), p[2], p[3]))
    case 0x0403 => if |p| < 2 then Err(Incomplete) else Ok(TaskCancel(U16(p[0], p[1])))
    case 0x0404 =>
      if |p| < 1 then Err(Incomplete)
      else (match DataOf(p[1..]) case Err(e) => Err(e) case Ok(d) => Ok(SwarmForm(p[0], d)))
    case 0x0405 =>
      if |p| < 2 then Err(Incomplete)
      else (match DataOf(p[2..]) case Err(e) => Err(e) case Ok(d) => Ok(PeerMsg(U16(p[0], p[1]), d)))
    case _ => Err(BadCmdId(id))
  }

  /** A command from its identifier and payload slice. The identifier's high byte names its group. */
  function DecodeCommand(id: u16, p: seq<byte>): Result<Command> {
    if id < 0x0100 then DecodeSystem(id, p)
    else if id < 0x0200 then DecodeMotion(id, p)
    else if id < 0x0300 then DecodeExpression(id, p)
    else if id < 0x0400 then DecodePerception(id, p)
    else if id < 0x0500 then DecodeCluster(id, p)
    else Err(BadCmdId(id))
  }

  // ---------- Round trip of one command ----------

  lemma SessionRoundTrip(c: Command)
    requires c.Heartbeat? || c.Register? || c.RegAck?
    ensures DecodeSystem(CmdId(c), Payload(c)) == Ok(c)
  {
    if c.Heartbeat? { JoinSplit16(c.taskId); }
    else if c.Register? { JoinSplit16(c.capabilities); assert Payload(c)[2..6] == c.firmwareVersion; }
    else { JoinSplit16(c.shortId); JoinSplit16(c.heartbeatInterval); }
  }

  lemma LinkRoundTrip(c: Command)
    requires c.Ping? || c.Pong? || c.Reset? || c.ErrorReport?
    ensures DecodeSystem(CmdId(c), Payload(c)) == Ok(c)
  {
    if c.Ping? { JoinSplit32(c.timestamp); }
    else if c.Pong? { JoinSplit32(c.timestamp); }
    else if c.ErrorReport? { JoinSplit16(c.errorCode); JoinSplit16(c.relatedSeqNo); }
  }

  lemma OtaRoundTrip(c: Command)
    requires c.OtaStart? || c.OtaChunk? || c.OtaDone?
    ensures DecodeSystem(CmdId(c), Payload(c)) == Ok(c)
  {
    if c.OtaStart? { JoinSplit32(c.size); assert Payload(c)[4..20] == c.md5; }
    else if c.OtaChunk? { JoinSplit32(c.offset); assert Payload(c)[4..] == c.data; }
  }

  lemma SystemRoundTrip(c: Command)
    requires IsSystem(c)
    ensures DecodeSystem(CmdId(c), Payload(c)) == Ok(c)
  {
    hide DecodeSystem, Payload, CmdId;
    if c.Heartbeat? || c.Register? || c.RegAck? { SessionRoundTrip(c); }
    else if c.OtaStart? || c.OtaChunk? || c.OtaDone? { OtaRoundTrip(c); }
    else { LinkRoundTrip(c); }
  }

  lemma MotionRoundTrip(c: Command)
    requires IsMotion(c)
    ensures DecodeMotion(CmdId(c), Payload(c)) == Ok(c)
  {
    if c.MoveTo? { JoinSplitI16(c.x); JoinSplitI16(c.y); }
    else if c.ServoSet? { JoinSplit16(c.angle); }
    else if c.ServoBatch? { ServoRoundTrip(c.servos, Payload(c), 0); }
  }

  lemma {:induction false} ServoAt(servos: seq<(byte, u16)>, k: nat)
    requires k < |servos|
    ensures ServoBytes(servos)[3 * k] == servos[k].0
    ensures U16(ServoBytes(servos)[3 * k + 1], ServoBytes(servos)[3 * k + 2]) == servos[k].1
    decreases k
  {
    if k == 0 {
      JoinSplit16(servos[0].1);
    } else {
      ServoAt(servos[1..], k - 1);
    }
  }

  lemma {:induction false} ServoRoundTrip(servos: Servos, p: seq<byte>, k: nat)
    requires k <= |servos| && p == [|servos|] + ServoBytes(servos)
    ensures ServosFrom(p, |servos|, servos[..k]) == Ok(servos)
    decreases |servos| - k
  {
    if k < |servos| {
      ServoAt(servos, k);
      assert servos[..k + 1] == servos[..k] + [servos[k]];
      ServoRoundTrip(servos, p, k + 1);
    } else {
      assert servos[..k] == servos;
    }
  }

  lemma LedRoundTrip(c: Command)
    requires c.LedSet? || c.LedPattern? || c.LedOff?
    ensures DecodeExpression(CmdId(c), Payload(c)) == Ok(c)
  {
    if c.LedSet? { JoinSplit16(c.led); }
  }

  lemma FaceRoundTrip(c: Command)
    requires c.FaceExpr? || c.FaceCustom?
    ensures DecodeExpression(CmdId(c), Payload(c)) == Ok(c)
  {
  }

  lemma SpeechRoundTrip(c: Command)
    requires c.Speak? || c.TtsText?
    ensures DecodeExpression(CmdId(c), Payload(c)) == Ok(c)
  {
    if c.Speak? { assert Payload(c)[2..] == c.data; }
    else { assert Payload(c)[1..] == c.data; }
  }

  lemma ExpressionRoundTrip(c: Command)
    requires IsExpression(c)
    ensures DecodeExpression(CmdId(c), Payload(c)) == Ok(c)
  {
    hide DecodeExpression, Payload, CmdId;
    if c.Speak? || c.TtsText? { SpeechRoundTrip(c); }
    else if c.FaceExpr? || c.FaceCustom? { FaceRoundTrip(c); }
    else { LedRoundTrip(c); }
  }

  lemma EnvRoundTrip(c: Command)
    requires c.EnvData?
    ensures DecodePerception(CmdId(c), Payload(c)) == Ok(c)
  {
    JoinSplitI16(c.temp);
    JoinSplit16(c.humi);
    JoinSplit32(c.pressure);
    JoinSplit32(c.light);
    JoinSplit16(c.air);
  }

  lemma ImuRoundTrip(c: Command)
    requires c.ImuData?
    ensures DecodePerception(CmdId(c), Payload(c)) == Ok(c)
  {
    JoinSplitI16(c.ax);
    JoinSplitI16(c.ay);
    JoinSplitI16(c.az);
    JoinSplitI16(c.gx);
    JoinSplitI16(c.gy);
    JoinSplitI16(c.gz);
  }

  lemma EventRoundTrip(c: Command)
    requires c.MotionEvent? || c.AudioEvent? || c.TouchEvent? || c.Obstacle?
    ensures DecodePerception(CmdId(c), Payload(c)) == Ok(c)
  {
    if c.AudioEvent? { JoinSplit16(c.energy); }
    else if c.Obstacle? { JoinSplit16(c.distance); }
  }

  lemma MediaRoundTrip(c: Command)
    requires c.AudioStream? || c.ImageSnapshot? || c.DepthData?
    ensures DecodePerception(CmdId(c), Payload(c)) == Ok(c)
  {
    if c.AudioStream? { assert Payload(c)[1..] == c.data; }
    else if c.ImageSnapshot? { JoinSplit16(c.width); JoinSplit16(c.height); assert Payload(c)[5..] == c.data; }
    else { JoinSplit16(c.width); JoinSplit16(c.height); assert Payload(c)[4..] == c.data; }
  }

  lemma PerceptionRoundTrip(c: Command)
    requires IsPerception(c)
    ensures DecodePerception(CmdId(c), Payload(c)) == Ok(c)
  {
    hide DecodePerception, Payload, CmdId;
    if c.EnvData? { EnvRoundTrip(c); }
    else if c.ImuData? { ImuRoundTrip(c); }
    else if c.AudioStream? || c.ImageSnapshot? || c.DepthData? { MediaRoundTrip(c); }
    else { EventRoundTrip(c); }
  }

  lemma TaskRoundTrip(c: Command)
    requires c.TaskAssign? || c.TaskStatus? || c.TaskCancel?
    ensures DecodeCluster(CmdId(c), Payload(c)) == Ok(c)
  {
    if c.TaskAssign? { assert Payload(c)[2..] == c.data; }
    else { JoinSplit16(c.taskId); }
  }

  lemma SwarmRoundTrip(c: Command)
    requires c.SwarmForm? || c.PeerMsg?
    ensures DecodeCluster(CmdId(c), Payload(c)) == Ok(c)
  {
    if c.SwarmForm? { assert Payload(c)[1..] == c.data; }
    else { JoinSplit16(c.target); assert Payload(c)[2..] == c.data; }
  }

  lemma ClusterRoundTrip(c: Command)
    requires IsCluster(c)
    ensures DecodeCluster(CmdId(c), Payload(c)) == Ok(c)
  {
    hide DecodeCluster, Payload, CmdId;
    if c.SwarmForm? || c.PeerMsg? { SwarmRoundTrip(c); } else { TaskRoundTrip(c); }
  }

  lemma GroupOf(c: Command)
    ensures IsSystem(c) ==> 0x0000 <= CmdId(c) < 0x0100
    ensures IsMotion(c) ==> 0x0100 <= CmdId(c) < 0x0200
    ensures IsExpression(c) ==> 0x0200 <= CmdId(c) < 0x0300
    ensures IsPerception(c) ==> 0x0300 <= CmdId(c) < 0x0400
    ensures IsCluster(c) ==> 0x0400 <= CmdId(c) < 0x0500
    ensures IsSystem(c) || IsMotion(c) || IsExpression(c) || IsPerception(c) || IsCluster(c)
  {
  }

  /** Decoding a command's payload under its identifier gives the command back, for every variant. */
  lemma CommandRoundTrip(c: Command)
    ensures DecodeCommand(CmdId(c), Payload(c)) == Ok(c)
  {
    GroupOf(c);
    hide DecodeSystem, DecodeMotion, DecodeExpression, DecodePerception, DecodeCluster, Payload, CmdId;
    if IsSystem(c) { SystemRoundTrip(c); }
    else if IsMotion(c) { MotionRoundTrip(c); }
    else if IsExpression(c) { ExpressionRoundTrip(c); }
    else if IsPerception(c) { PerceptionRoundTrip(c); }
    else { ClusterRoundTrip(c); }
  }

  // ---------- What decoding can produce ----------

  /** A decoded command has the identifier it was decoded under and needs no more bytes than it was given. */
  predicate Explains(id: u16, p: seq<byte>, r: Result<Command>) {
    r.Ok? ==> CmdId(r.value) == id && PayloadLen(r.value) <= |p|
  }

  lemma SystemExplains(id: u16, p: seq<byte>)
    ensures Explains(id, p, DecodeSystem(id, p))
  {
  }

  lemma MotionExplains(id: u16, p: seq<byte>)
    ensures Explains(id, p, DecodeMotion(id, p))
  {
    if id == 0x0105 && |p| >= 1 {
      ServosFromFits(p, p[0], []);
    }
  }

  lemma ExpressionExplains(id: u16, p: seq<byte>)
    ensures Explains(id, p, DecodeExpression(id, p))
  {
  }

  lemma PerceptionExplains(id: u16, p: seq<byte>)
    ensures Explains(id, p, DecodePerception(id, p))
  {
  }

  lemma ClusterExplains(id: u16, p: seq<byte>)
    ensures Explains(id, p, DecodeCluster(id, p))
  {
  }

  lemma DecodeExplains(id: u16, p: seq<byte>)
    ensures Explains(id, p, DecodeCommand(id, p))
  {
    SystemExplains(id, p);
    MotionExplains(id, p);
    ExpressionExplains(id, p);
    PerceptionExplains(id, p);
    ClusterExplains(id, p);
  }
}
