/** The life of a task while the dispatch loop, the status handler, the API handlers and the offline handler
    interleave, one database statement at a time. */
module Lifecycle {
  import opened Bytes
  import opened Outcomes
  import opened Scheduler

  /** `round` and `robots` are what the dispatch loop read and has not dealt with yet; `started` says that the first
      statement of a dispatch is done. `failing` is the status handler between reading a failed task and writing;
      `cancelling` holds the cancel requests between their read and their write. */
  datatype State = State(tasks: Table, round: seq<Row>, robots: seq<Robot>, started: bool,
                         failing: Option<(nat, bool)>, cancelling: multiset<nat>)

  const EMPTY := State([], [], [], false, None, multiset{})

  /** `ok` is whether the database statement succeeds. */
  datatype Event =
    | Create(req: Request)
    | BeginRound(robots: seq<Robot>)
    | Assign(ok: bool)
    | StartTask(ok: bool)
    | Complete(id: nat)
    | ReadFailed(id: nat)
    | WriteFailed(ok: bool)
    | ReadCancel(id: nat)
    | WriteCancel(id: nat)
    | RobotOffline(shortId: i16)

  /** One statement; an event that is not possible in the state changes nothing. */
  function Step(sqrt: real -> real, s: State, e: Event): State {
    match e
    case Create(req) => s.(tasks := CreateTask(s.tasks, req))
    case BeginRound(robots) =>
      if s.round != [] || robots == [] then s else s.(round := ListPending(s.tasks), robots := robots, started := false)
    case Assign(ok) =>
      if s.round == [] || s.started then s
      else
        (match Decide(sqrt, s.round[0].task, s.robots)
         case None => s.(round := s.round[1..])
         case Some(robot) =>
           if ok then s.(tasks := AssignRobot(s.tasks, s.round[0].id, robot.shortId), started := true)
           else s.(round := s.round[1..]))
    case StartTask(ok) =>
      if s.round == [] || !s.started then s
      else s.(tasks := if ok then Start(s.tasks, s.round[0].id) else s.tasks, round := s.round[1..], started := false)
    case Complete(id) => if s.failing.Some? then s else s.(tasks := WithStatus(s.tasks, id, Completed))
    case ReadFailed(id) =>
      if s.failing.Some? || id >= |s.tasks| then s else s.(failing := Some((id, CanRetry(s.tasks[id]))))
    case WriteFailed(ok) =>
      if s.failing.None? then s
      else
        var (id, retry) := s.failing.value;
        s.(tasks := if !ok then s.tasks
                    else if retry then IncrementRetry(s.tasks, id)
                    else WithStatus(s.tasks, id, Failed),
           failing := None)
    case ReadCancel(id) =>
      if id >= |s.tasks| || Terminal(s.tasks[id]) then s else s.(cancelling := s.cancelling + multiset{id})
    case WriteCancel(id) =>
      if id !in s.cancelling then s
      else s.(tasks := WithStatus(s.tasks, id, Cancelled), cancelling := s.cancelling - multiset{id})
    case RobotOffline(shortId) => s.(tasks := RequeueAll(s.tasks, shortId))
  }

  function Run(sqrt: real -> real, s: State, es: seq<Event>): State
    decreases |es|
  {
    if es == [] then s else Run(sqrt, Step(sqrt, s, es[0]), es[1..])
  }

  function Positive(n: int): nat {
    if n > 0 then n else 0
  }

  predicate Listed(round: seq<Row>, id: nat) {
    exists i :: 0 <= i < |round| && round[i].id == id
  }

  /** A task waits if the next or the current round may still dispatch it. */
  predicate Waits(t: Task, listed: bool) {
    t.status == Pending || listed
  }

  predicate TaskOk(t: Task, listed: bool) {
    && 0 <= t.retryCount <= Positive(t.maxRetries)
    && t.dispatches + (if Waits(t, listed) then 1 else 0) <= 1 + t.retryCount + t.requeues
    && (t.status == Failed ==> t.retryCount >= t.maxRetries)
  }

  ghost predicate Sound(s: State) {
    && UniqueIds(s.round)
    && (forall i :: 0 <= i < |s.round| ==> s.round[i].id < |s.tasks|)
    && (s.started ==> s.round != [])
    && (s.failing.Some? ==> s.failing.value.0 < |s.tasks| && s.failing.value.1 == CanRetry(s.tasks[s.failing.value.0]))
    && (forall id :: 0 <= id < |s.tasks| ==> TaskOk(s.tasks[id], Listed(s.round, id)))
  }

  /** What a statement may do to one task that stays or ceases to be listed. */
  ghost predicate Moves(t: Task, t': Task) {
    && t'.maxRetries == t.maxRetries && t.retryCount <= t'.retryCount && t.dispatches <= t'.dispatches
    && t.requeues <= t'.requeues
  }

  lemma TailListed(round: seq<Row>, id: nat)
    requires round != [] && UniqueIds(round)
    ensures Listed(round[1..], id) <==> Listed(round, id) && id != round[0].id
    ensures UniqueIds(round[1..])
  {
    if Listed(round, id) && id != round[0].id {
      var i :| 0 <= i < |round| && round[i].id == id;
      assert round[1..][i - 1].id == id;
    }
    if Listed(round[1..], id) {
      var i :| 0 <= i < |round[1..]| && round[1..][i].id == id;
      assert round[i + 1].id == id;
    }
  }

  /** The part of soundness that concerns the table: what `ts` may become while the rounds stay as they are. */
  lemma TableChange(s: State, ts: Table)
    requires Sound(s) && |ts| == |s.tasks|
    requires forall id :: 0 <= id < |ts| ==> TaskOk(ts[id], Listed(s.round, id))
    requires s.failing.Some? ==> CanRetry(ts[s.failing.value.0]) == CanRetry(s.tasks[s.failing.value.0])
    ensures Sound(s.(tasks := ts))
  {
    hide TaskOk, CanRetry, Listed;
  }

  /** Dropping the head of a round can only help. */
  lemma DropHead(s: State, ts: Table)
    requires Sound(s) && s.round != [] && |ts| == |s.tasks|
    requires forall id :: 0 <= id < |ts| && id != s.round[0].id ==> ts[id] == s.tasks[id]
    requires TaskOk(ts[s.round[0].id], false)
    requires CanRetry(ts[s.round[0].id]) == CanRetry(s.tasks[s.round[0].id])
    ensures Sound(s.(tasks := ts, round := s.round[1..], started := false))
  {
    hide CanRetry, Listed;
    var round := s.round[1..];
    forall id | 0 <= id < |ts| ensures TaskOk(ts[id], Listed(round, id)) {
      TailListed(s.round, id);
    }
    TailListed(s.round, 0);
  }

  lemma StatusKeepsOk(t: Task, status: Status, listed: bool)
    requires TaskOk(t, listed) && status != Pending && (status == Failed ==> !CanRetry(t))
    ensures TaskOk(t.(status := status), listed)
  {
  }

  lemma WithStatusSound(s: State, id: nat, status: Status)
    requires Sound(s) && status != Pending && (status == Failed && id < |s.tasks| ==> !CanRetry(s.tasks[id]))
    ensures Sound(s.(tasks := WithStatus(s.tasks, id, status)))
  {
    var ts := WithStatus(s.tasks, id, status);
    hide TaskOk, Listed;
    forall i | 0 <= i < |ts| ensures TaskOk(ts[i], Listed(s.round, i)) {
      if i == id {
        StatusKeepsOk(s.tasks[id], status, Listed(s.round, id));
      }
    }
    TableChange(s, ts);
  }

  lemma CreateSound(s: State, req: Request)
    requires Sound(s)
    ensures Sound(s.(tasks := CreateTask(s.tasks, req)))
  {
    hide Listed;
  }

  lemma BeginRoundSound(s: State, robots: seq<Robot>)
    requires Sound(s) && s.round == []
    ensures Sound(s.(round := ListPending(s.tasks), robots := robots, started := false))
  {
    hide ListPending, UniqueIds;
    var round := ListPending(s.tasks);
    ListPendingRows(s.tasks);
    forall id | 0 <= id < |s.tasks| ensures TaskOk(s.tasks[id], Listed(round, id)) {
      assert TaskOk(s.tasks[id], Listed(s.round, id));
      if Listed(round, id) {
        var i :| 0 <= i < |round| && round[i].id == id;
        assert round[i] in round;
      }
    }
    forall i | 0 <= i < |round| ensures round[i].id < |s.tasks| {
      assert round[i] in round;
    }
  }

  lemma AssignSound(s: State, shortId: i16)
    requires Sound(s) && s.round != []
    ensures Sound(s.(tasks := AssignRobot(s.tasks, s.round[0].id, shortId), started := true))
  {
    var ts := AssignRobot(s.tasks, s.round[0].id, shortId);
    hide Listed;
    TableChange(s, ts);
  }

  lemma StartSound(s: State, ok: bool)
    requires Sound(s) && s.round != []
    ensures Sound(s.(tasks := if ok then Start(s.tasks, s.round[0].id) else s.tasks, round := s.round[1..],
                     started := false))
  {
    var id := s.round[0].id;
    assert Listed(s.round, id);
    assert TaskOk(s.tasks[id], true);
    DropHead(s, if ok then Start(s.tasks, id) else s.tasks);
  }

  lemma WriteFailedSound(s: State, ok: bool)
    requires Sound(s) && s.failing.Some?
    ensures Sound(Step(x => x, s, WriteFailed(ok)))
  {
    var (id, retry) := s.failing.value;
    var idle := s.(failing := None);
    assert Sound(idle);
    hide Listed;
    if ok && retry {
      assert TaskOk(s.tasks[id], Listed(s.round, id));
      TableChange(idle, IncrementRetry(s.tasks, id));
    } else if ok {
      WithStatusSound(idle, id, Failed);
    }
  }

  lemma OfflineSound(s: State, shortId: i16)
    requires Sound(s)
    ensures Sound(s.(tasks := RequeueAll(s.tasks, shortId)))
  {
    var ts := RequeueAll(s.tasks, shortId);
    hide Listed;
    forall id | 0 <= id < |ts| ensures TaskOk(ts[id], Listed(s.round, id)) {
      assert TaskOk(s.tasks[id], Listed(s.round, id));
    }
    TableChange(s, ts);
  }

  /** Every statement of every handler keeps the invariant. */
  lemma StepSound(sqrt: real -> real, s: State, e: Event)
    requires Sound(s)
    ensures Sound(Step(sqrt, s, e))
  {
    match e
    case Create(req) => CreateSound(s, req);
    case BeginRound(robots) =>
      if s.round == [] {
        BeginRoundSound(s, robots);
      }
    case Assign(ok) =>
      if s.round != [] && !s.started {
        match Decide(sqrt, s.round[0].task, s.robots)
        case None => StartSound(s, false);
        case Some(robot) =>
          AssignSound(s, robot.shortId);
          StartSound(s, false);
      }
    case StartTask(ok) =>
      if s.round != [] {
        StartSound(s, ok);
      }
    case Complete(id) => WithStatusSound(s, id, Completed);
    case ReadFailed(id) =>
    case WriteFailed(ok) =>
      if s.failing.Some? {
        WriteFailedSound(s, ok);
      }
    case ReadCancel(id) =>
    case WriteCancel(id) =>
      WithStatusSound(s, id, Cancelled);
    case RobotOffline(shortId) => OfflineSound(s, shortId);
  }

  /** Every state that the handlers can reach is sound. */
  lemma {:induction false} RunSound(sqrt: real -> real, s: State, es: seq<Event>)
    requires Sound(s)
    ensures Sound(Run(sqrt, s, es))
    decreases |es|
  {
    hide Sound, Step;
    if es != [] {
      StepSound(sqrt, s, es[0]);
      RunSound(sqrt, Step(sqrt, s, es[0]), es[1..]);
    }
  }

  /** In every run a task is dispatched at most once, plus once per retry, plus once per requeue after its robot went
      offline; and it only fails for good when its retries are used up. */
  lemma BoundedDispatch(sqrt: real -> real, es: seq<Event>, id: nat)
    requires id < |Run(sqrt, EMPTY, es).tasks|
    ensures var t := Run(sqrt, EMPTY, es).tasks[id];
            && t.dispatches <= 1 + Positive(t.maxRetries) + t.requeues
            && 0 <= t.retryCount <= Positive(t.maxRetries)
            && (t.status == Failed ==> t.retryCount >= t.maxRetries)
  {
    hide Run, Listed;
    RunSound(sqrt, EMPTY, es);
  }

  /** No statement lowers a task's retry count or changes its limit. */
  lemma StepMonotone(sqrt: real -> real, s: State, e: Event, id: nat)
    requires id < |s.tasks|
    ensures id < |Step(sqrt, s, e).tasks| && Moves(s.tasks[id], Step(sqrt, s, e).tasks[id])
  {
    hide Decide, ListPending;
  }

  lemma {:induction false} RunMonotone(sqrt: real -> real, s: State, es: seq<Event>, id: nat)
    requires id < |s.tasks|
    ensures id < |Run(sqrt, s, es).tasks| && Moves(s.tasks[id], Run(sqrt, s, es).tasks[id])
    decreases |es|
  {
    hide Step;
    if es != [] {
      StepMonotone(sqrt, s, es[0], id);
      RunMonotone(sqrt, Step(sqrt, s, es[0]), es[1..], id);
    }
  }
}
