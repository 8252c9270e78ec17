/** Writing payloads in place, one field after another. */
module Encoder {
  import opened Bytes
  import opened Commands

  /** The bytes from `at` on have become `t`, and no other byte of the buffer has changed. */
  twostate predicate Written(buf: array<byte>, at: nat, t: seq<byte>)
    reads buf
  {
    && at + |t| <= buf.Length
    && (forall k :: at <= k < at + |t| ==> buf[k] == t[k - at])
    && (forall k :: 0 <= k < buf.Length && !(at <= k < at + |t|) ==> buf[k] == old(buf[k]))
  }

  /** `copy_from_slice`. */
  method CopyFrom(buf: array<byte>, at: nat, data: seq<byte>)
    requires at + |data| <= buf.Length
    modifies buf
    ensures Written(buf, at, data)
  {
    forall i | 0 <= i < |data| {
      buf[at + i] := data[i];
    }
  }

  /** Fixed fields first, then a slice behind them. */
  method PutFields(buf: array<byte>, at: nat, fields: seq<byte>, tail: seq<byte>)
    requires at + |fields| + |tail| <= buf.Length
    modifies buf
    ensures Written(buf, at, fields + tail)
  {
    for i := 0 to |fields|
      invariant Written(buf, at, fields[..i])
    {
      buf[at + i] := fields[i];
    }
    CopyFrom(buf, at + |fields|, tail);
  }

  method EncodeSystem(c: Command, buf: array<byte>, at: nat)
    requires IsSystem(c) && at + PayloadLen(c) <= buf.Length
    modifies buf
    ensures Written(buf, at, Payload(c))
  {
    match c {
      case Heartbeat(status, battery, rssi, taskId) =>
        PutFields(buf, at, [status, battery, Unsigned8(rssi)], LE16(taskId));
      case Register(caps, fw) => PutFields(buf, at, LE16(caps), fw);
      case RegAck(shortId, interval) => PutFields(buf, at, LE16(shortId), LE16(interval));
      case Ping(timestamp) => CopyFrom(buf, at, LE32(timestamp));
      case Pong(timestamp) => CopyFrom(buf, at, LE32(timestamp));
      case Reset(reason) => buf[at] := reason;
      case OtaStart(size, md5) => PutFields(buf, at, LE32(size), md5);
      case OtaChunk(offset, data) => PutFields(buf, at, LE32(offset), data);
      case ErrorReport(code, level, related) => PutFields(buf, at, LE16(code) + [level], LE16(related));
      case _ =>
    }
  }

  method EncodeMotion(c: Command, buf: array<byte>, at: nat)
    requires IsMotion(c) && at + PayloadLen(c) <= buf.Length
    modifies buf
    ensures Written(buf, at, Payload(c))
  {
    match c {
      case Move(direction, speed) => CopyFrom(buf, at, [DirectionCode(direction), speed]);
      case MoveTo(x, y, speed) => PutFields(buf, at, LE16(Unsigned16(x)) + LE16(Unsigned16(y)), [speed]);
      case Stop(emergency) => buf[at] := if emergency then 1 else 0;
      case ServoSet(id, angle) => PutFields(buf, at, [id], LE16(angle));
      case ServoBatch(servos) => EncodeServos(servos, buf, at);
      case HeadPanTilt(pan, tilt) => CopyFrom(buf, at, [pan, tilt]);
      case _ =>
    }
  }

  /** The loop over the servos; `i` have been written after the count byte. */
  method EncodeServos(servos: Servos, buf: array<byte>, at: nat)
    requires at + 1 + 3 * |servos| <= buf.Length
    modifies buf
    ensures Written(buf, at, [Truncate8(|servos|)] + ServoBytes(servos))
  {
    buf[at] := Truncate8(|servos|);
    for i := 0 to |servos|
      invariant Written(buf, at, [Truncate8(|servos|)] + ServoBytes(servos[..i]))
    {
      var off := at + 1 + i * 3;
      var (id, angle) := servos[i];
      buf[off] := id;
      buf[off + 1] := Lo(angle);
      buf[off + 2] := Hi(angle);
      ServoBytesAppend(servos, i);
    }
    assert servos[..|servos|] == servos;
  }

  lemma {:induction false} ServoBytesAppend(servos: seq<(byte, u16)>, i: nat)
    requires i < |servos|
    ensures ServoBytes(servos[..i + 1]) == ServoBytes(servos[..i]) + [servos[i].0, Lo(servos[i].1), Hi(servos[i].1)]
    decreases i
  {
    if i > 0 {
      ServoBytesAppend(servos[1..], i - 1);
      assert servos[..i + 1][1..] == servos[1..][..i];
      assert servos[..i][1..] == servos[1..][..i - 1];
    }
  }

  method EncodeExpression(c: Command, buf: array<byte>, at: nat)
    requires IsExpression(c) && at + PayloadLen(c) <= buf.Length
    modifies buf
    ensures Written(buf, at, Payload(c))
  {
    match c {
      case LedSet(led, r, g, b) => PutFields(buf, at, LE16(led), [r, g, b]);
      case LedPattern(mode, speed, r, g, b) => CopyFrom(buf, at, [LedModeCode(mode), speed, r, g, b]);
      case FaceExpr(expr) => buf[at] := FaceCode(expr);
      case FaceCustom(data) => CopyFrom(buf, at, data);
      case Speak(volume, audio, data) => PutFields(buf, at, [volume, AudioCode(audio)], data);
      case TtsText(encoding, data) => PutFields(buf, at, [encoding], data);
      case _ =>
    }
  }

  method EncodeSensors(c: Command, buf: array<byte>, at: nat)
    requires (c.EnvData? || c.ImuData?) && at + PayloadLen(c) <= buf.Length
    modifies buf
    ensures Written(buf, at, Payload(c))
  {
    match c {
      case EnvData(temp, humi, pressure, light, air) =>
        PutFields(buf, at, LE16(Unsigned16(temp)) + LE16(humi) + LE32(pressure) + LE32(light), LE16(air));
      case ImuData(ax, ay, az, gx, gy, gz) =>
        PutFields(buf, at, LE16(Unsigned16(ax)) + LE16(Unsigned16(ay)) + LE16(Unsigned16(az))
                           + LE16(Unsigned16(gx)) + LE16(Unsigned16(gy)), LE16(Unsigned16(gz)));
      case _ =>
    }
  }

  method EncodePerception(c: Command, buf: array<byte>, at: nat)
    requires IsPerception(c) && at + PayloadLen(c) <= buf.Length
    modifies buf
    ensures Written(buf, at, Payload(c))
  {
    match c {
      case EnvData(_, _, _, _, _) => EncodeSensors(c, buf, at);
      case MotionEvent(detectType, confidence) => CopyFrom(buf, at, [detectType, confidence]);
      case AudioEvent(eventType, energy) => PutFields(buf, at, [eventType], LE16(energy));
      case AudioStream(encoding, data) => PutFields(buf, at, [encoding], data);
      case ImageSnapshot(image, width, height, data) =>
        PutFields(buf, at, [ImageCode(image)] + LE16(width) + LE16(height), data);
      case DepthData(width, height, data) => PutFields(buf, at, LE16(width) + LE16(height), data);
      case TouchEvent(zone, force, state) => CopyFrom(buf, at, [zone, force, state]);
      case ImuData(_, _, _, _, _, _) => EncodeSensors(c, buf, at);
      case Obstacle(side, distance) => PutFields(buf, at, [side], LE16(distance));
      case _ =>
    }
  }

  method EncodeCluster(c: Command, buf: array<byte>, at: nat)
    requires IsCluster(c) && at + PayloadLen(c) <= buf.Length
    modifies buf
    ensures Written(buf, at, Payload(c))
  {
    match c {
      case TaskAssign(taskType, priority, data) => PutFields(buf, at, [taskType, priority], data);
      case TaskStatus(taskId, status, progress) => PutFields(buf, at, LE16(taskId), [status, progress]);
      case TaskCancel(taskId) => CopyFrom(buf, at, LE16(taskId));
      case SwarmForm(formationId, data) => PutFields(buf, at, [formationId], data);
      case PeerMsg(target, data) => PutFields(buf, at, LE16(target), data);
      case _ =>
    }
  }

  /** `encode_payload`: the command's payload ends up at `at` and nothing else changes. */
  method EncodePayload(c: Command, buf: array<byte>, at: nat)
    requires at + PayloadLen(c) <= buf.Length
    modifies buf
    ensures Written(buf, at, Payload(c))
  {
    GroupOf(c);
    if IsSystem(c) {
      EncodeSystem(c, buf, at);
    } else if IsMotion(c) {
      EncodeMotion(c, buf, at);
    } else if IsExpression(c) {
      EncodeExpression(c, buf, at);
    } else if IsPerception(c) {
      EncodePerception(c, buf, at);
    } else {
      EncodeCluster(c, buf, at);
    }
  }
}
