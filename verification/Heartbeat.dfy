/** Delta heartbeats: the differ of the protocol library, the firmware's differ, and the receiver's mirror. */
module Heartbeat {
  import opened Bytes
  import opened Outcomes

  datatype HeartbeatState = HeartbeatState(shortId: u16, status: byte, battery: byte, rssi: i8, taskId: u16)

  datatype Delta =
    | Full(state: HeartbeatState)
    | BatteryOnly(shortId: u16, battery: byte)
    | NoChange(shortId: u16)

  function DiffOf(last: Option<HeartbeatState>, current: HeartbeatState): Delta {
    match last
    case None => Full(current)
    case Some(prev) =>
      if prev.status == current.status && prev.rssi == current.rssi && prev.taskId == current.taskId then
        if prev.battery == current.battery then NoChange(current.shortId)
        else BatteryOnly(current.shortId, current.battery)
      else Full(current)
  }

  class HeartbeatDiffer {
    var last: Option<HeartbeatState>

    constructor ()
      ensures last == None
    {
      last := None;
    }

    method Diff(current: HeartbeatState) returns (delta: Delta)
      modifies this
      ensures delta == DiffOf(old(last), current) && last == Some(current)
    {
      if last.None? {
        last := Some(current);
        return Full(current);
      }
      var prev := last.value;
      if prev.status == current.status && prev.rssi == current.rssi && prev.taskId == current.taskId {
        if prev.battery == current.battery {
          delta := NoChange(current.shortId);
        } else {
          delta := BatteryOnly(current.shortId, current.battery);
        }
      } else {
        delta := Full(current);
      }
      last := Some(current);
    }

    method Reset()
      modifies this
      ensures last == None
    {
      last := None;
    }
  }

  // ---------- The receiver ----------

  /** What a receiver makes of a delta. */
  function Apply(mirror: Option<HeartbeatState>, delta: Delta): Option<HeartbeatState> {
    match delta
    case Full(state) => Some(state)
    case BatteryOnly(id, battery) =>
      (match mirror case Some(m) => Some(m.(shortId := id, battery := battery)) case None => None)
    case NoChange(id) =>
      (match mirror case Some(m) => Some(m.(shortId := id)) case None => None)
  }

  datatype Op = Report(current: HeartbeatState) | Reset

  /** The differ's memory after a run. */
  function LastAfter(last: Option<HeartbeatState>, ops: seq<Op>): Option<HeartbeatState>
    decreases |ops|
  {
    if ops == [] then last
    else LastAfter(match ops[0] case Report(c) => Some(c) case Reset => None, ops[1..])
  }

  /** The mirror after a run of which every delta arrives. */
  function MirrorAfter(last: Option<HeartbeatState>, mirror: Option<HeartbeatState>, ops: seq<Op>):
    Option<HeartbeatState>
    decreases |ops|
  {
    if ops == [] then mirror
    else
      match ops[0]
      case Report(c) => MirrorAfter(Some(c), Apply(mirror, DiffOf(last, c)), ops[1..])
      case Reset => MirrorAfter(None, mirror, ops[1..])
  }

  /** The state most recently reported, if any. */
  function Latest(ops: seq<Op>): Option<HeartbeatState> {
    if ops == [] then None
    else if ops[|ops| - 1].Report? then Some(ops[|ops| - 1].current)
    else Latest(ops[..|ops| - 1])
  }

  /** A mirror that agrees with the differ's memory, or a differ without memory. */
  predicate InStep(last: Option<HeartbeatState>, mirror: Option<HeartbeatState>) {
    last.Some? ==> mirror == last
  }

  /** One delta brings the mirror to the reported state, short id included, if the two were in step. */
  lemma OneDelta(last: Option<HeartbeatState>, mirror: Option<HeartbeatState>, current: HeartbeatState)
    requires InStep(last, mirror)
    ensures Apply(mirror, DiffOf(last, current)) == Some(current)
  {
  }

  lemma LatestCons(op: Op, ops: seq<Op>)
    ensures Latest([op] + ops) ==
              if Latest(ops).Some? then Latest(ops) else if op.Report? then Some(op.current) else None
  {
    if ops != [] {
      assert ([op] + ops)[..|ops|] == [op] + ops[..|ops| - 1];
      LatestCons(op, ops[..|ops| - 1]);
    } else {
      assert [op] + [] == [op] && [op][..0] == [];
    }
  }

  /** The receiver tracks the sender exactly, over any reports and resets. A reset sender may face any stale
      mirror: the first report after it brings the two together. */
  lemma {:induction false} MirrorTracks(last: Option<HeartbeatState>, mirror: Option<HeartbeatState>, ops: seq<Op>)
    requires InStep(last, mirror)
    ensures InStep(LastAfter(last, ops), MirrorAfter(last, mirror, ops))
    ensures MirrorAfter(last, mirror, ops) == if Latest(ops).Some? then Latest(ops) else mirror
    decreases |ops|
  {
    if ops != [] {
      assert ops == [ops[0]] + ops[1..];
      LatestCons(ops[0], ops[1..]);
      match ops[0]
      case Report(c) =>
        OneDelta(last, mirror, c);
        MirrorTracks(Some(c), Some(c), ops[1..]);
      case Reset =>
        MirrorTracks(None, mirror, ops[1..]);
    }
  }

  /** The fields whose change makes the differ send everything. */
  predicate SameButBattery(a: HeartbeatState, b: HeartbeatState) {
    a.status == b.status && a.rssi == b.rssi && a.taskId == b.taskId
  }

  /** Out of step, one report is mirrored correctly exactly when some field but the battery has changed since the last
      report, or there was none, or the stale mirror agrees already: in those fields, and in the battery too if that
      has not changed either. */
  lemma StaleReportExactly(last: Option<HeartbeatState>, mirror: Option<HeartbeatState>, current: HeartbeatState)
    ensures Apply(mirror, DiffOf(last, current)) == Some(current) <==>
              || last.None? || !SameButBattery(last.value, current)
              || (mirror.Some? && SameButBattery(mirror.value, current)
                  && (last.value.battery == current.battery ==> mirror.value.battery == current.battery))
  {
  }

  function Reports(states: seq<HeartbeatState>): (ops: seq<Op>)
    ensures |ops| == |states|
  {
    if states == [] then [] else [Report(states[0])] + Reports(states[1..])
  }

  /** What the differ remembers when it compares state `i`. */
  function Previous(last: HeartbeatState, states: seq<HeartbeatState>, i: nat): HeartbeatState
    requires i < |states|
  {
    if i == 0 then last else states[i - 1]
  }

  /** Some report differs from its predecessor in more than the battery. */
  ghost predicate ChangesMuch(last: HeartbeatState, states: seq<HeartbeatState>) {
    exists i: nat :: i < |states| && !SameButBattery(Previous(last, states, i), states[i])
  }

  ghost predicate ChangesBattery(last: HeartbeatState, states: seq<HeartbeatState>) {
    exists i: nat :: i < |states| && Previous(last, states, i).battery != states[i].battery
  }

  lemma PreviousTail(last: HeartbeatState, states: seq<HeartbeatState>, i: nat)
    requires 0 < i < |states|
    ensures Previous(last, states, i) == Previous(states[0], states[1..], i - 1) && states[i] == states[1..][i - 1]
  {
  }

  lemma ChangesUnfold(last: HeartbeatState, states: seq<HeartbeatState>)
    requires states != []
    ensures ChangesMuch(last, states) <==> !SameButBattery(last, states[0]) || ChangesMuch(states[0], states[1..])
    ensures ChangesBattery(last, states) <==>
              last.battery != states[0].battery || ChangesBattery(states[0], states[1..])
  {
    hide SameButBattery;
    var rest := states[1..];
    assert Previous(last, states, 0) == last;
    forall i: nat | 0 < i < |states|
      ensures Previous(last, states, i) == Previous(states[0], rest, i - 1) && states[i] == rest[i - 1]
    {
      PreviousTail(last, states, i);
    }
    forall i: nat | i < |rest|
      ensures Previous(last, states, i + 1) == Previous(states[0], rest, i) && states[i + 1] == rest[i]
    {
      PreviousTail(last, states, i + 1);
    }
  }

  /** What one delta without the other fields does to a mirror. */
  lemma StaleStep(last: HeartbeatState, mirror: Option<HeartbeatState>, c: HeartbeatState)
    ensures var m := Apply(mirror, DiffOf(Some(last), c));
            if !SameButBattery(last, c) then m == Some(c)
            else
              && (m.Some? <==> mirror.Some?)
              && (m.Some? ==>
                    && (SameButBattery(m.value, c) <==> SameButBattery(mirror.value, last))
                    && m.value.battery == (if last.battery == c.battery then mirror.value.battery else c.battery)
                    && m.value.shortId == c.shortId)
  {
  }

  lemma EqualParts(a: HeartbeatState, b: HeartbeatState)
    ensures a == b <==> SameButBattery(a, b) && a.battery == b.battery && a.shortId == b.shortId
  {
  }

  lemma OneReport(last: HeartbeatState, mirror: Option<HeartbeatState>, c: HeartbeatState, rest: seq<HeartbeatState>)
    ensures MirrorAfter(Some(last), mirror, Reports([c] + rest)) ==
              MirrorAfter(Some(c), Apply(mirror, DiffOf(Some(last), c)), Reports(rest))
    ensures MirrorAfter(Some(last), mirror, Reports([])) == mirror
  {
    hide Apply, DiffOf;
    assert ([c] + rest)[1..] == rest;
    assert Reports([c] + rest)[1..] == Reports(rest);
  }

  /** How far a stale mirror gets over any number of reports that all arrive: it is right in the end if and only if the
      differ had to send everything at some point, or the mirror was right in all fields but the battery from the start
      and the battery was right or has been sent. */
  lemma {:induction false} StaleMirrorExactly(last: HeartbeatState, mirror: Option<HeartbeatState>,
                                              states: seq<HeartbeatState>)
    requires states != []
    ensures MirrorAfter(Some(last), mirror, Reports(states)) == Some(states[|states| - 1]) <==>
              || ChangesMuch(last, states)
              || (mirror.Some? && SameButBattery(mirror.value, last)
                  && (mirror.value.battery == last.battery || ChangesBattery(last, states)))
    decreases |states|
  {
    hide ChangesMuch, ChangesBattery, MirrorAfter, Reports, Apply, DiffOf, SameButBattery;
    var c, rest := states[0], states[1..];
    var m := Apply(mirror, DiffOf(Some(last), c));
    assert states == [c] + rest;
    ChangesUnfold(last, states);
    OneReport(last, mirror, c, rest);
    StaleStep(last, mirror, c);
    EqualParts(c, c);
    if rest != [] {
      StaleMirrorExactly(c, m, rest);
    } else {
      NoChanges(c);
      OneReport(c, m, c, []);
      if m.Some? {
        EqualParts(m.value, c);
      }
    }
  }

  lemma NoChanges(last: HeartbeatState)
    ensures !ChangesMuch(last, []) && !ChangesBattery(last, [])
  {
  }

  // ---------- The firmware's differ ----------

  datatype DeltaType = FULL | NO_CHANGE | BATTERY_ONLY

  /** `heartbeat_delta_t`: fields that the type does not use keep what they held. */
  class DeltaRecord {
    var kind: DeltaType
    var status: byte
    var battery: byte
    var rssi: i8
    var taskId: u16

    constructor ()
    {
      kind, status, battery, rssi, taskId := FULL, 0, 0, 0, 0;
    }

    /** What the record says about the robot with this short id. */
    function Meaning(shortId: u16): Delta
      reads this
    {
      match kind
      case FULL => Full(HeartbeatState(shortId, status, battery, rssi, taskId))
      case BATTERY_ONLY => BatteryOnly(shortId, battery)
      case NO_CHANGE => NoChange(shortId)
    }
  }

  class FirmwareDiffer {
    var hasLast: bool
    var lastStatus: byte
    var lastBattery: byte
    var lastRssi: i8
    var lastTaskId: u16

    /** The remembered state, for a robot with this short id. */
    function Last(shortId: u16): Option<HeartbeatState>
      reads this
    {
      if hasLast then Some(HeartbeatState(shortId, lastStatus, lastBattery, lastRssi, lastTaskId)) else None
    }

    constructor ()
      ensures forall id :: Last(id) == None
    {
      hasLast, lastStatus, lastBattery, lastRssi, lastTaskId := false, 0, 0, 0, 0;
    }

    /** The same variants as the library's differ, whatever short ids the states carry. */
    method Diff(out: DeltaRecord, status: byte, battery: byte, rssi: i8, taskId: u16)
      modifies this, out
      ensures forall before: u16, id: u16 ::
                out.Meaning(id) == DiffOf(old(Last(before)), HeartbeatState(id, status, battery, rssi, taskId))
      ensures forall id :: Last(id) == Some(HeartbeatState(id, status, battery, rssi, taskId))
    {
      if !hasLast {
        hasLast := true;
        out.kind := FULL;
        out.status, out.battery, out.rssi, out.taskId := status, battery, rssi, taskId;
      } else if lastStatus == status && lastRssi == rssi && lastTaskId == taskId {
        if lastBattery == battery {
          out.kind := NO_CHANGE;
        } else {
          out.kind := BATTERY_ONLY;
          out.battery := battery;
        }
      } else {
        out.kind := FULL;
        out.status, out.battery, out.rssi, out.taskId := status, battery, rssi, taskId;
      }
      lastStatus, lastBattery, lastRssi, lastTaskId := status, battery, rssi, taskId;
    }
  }
}
