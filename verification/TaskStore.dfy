/** The task table as an object: the scheduler's operations when nothing interleaves with them. */
module TaskStore {
  import opened Bytes
  import opened Outcomes
  import opened Scheduler
  import Lifecycle

  datatype Cancellation = Accepted | NotFound | AlreadyTerminal

  /** `set_task_failed`: back to pending while retries are left, failed otherwise. */
  function AfterFailure(ts: Table, id: nat): Table {
    if id >= |ts| then ts else if CanRetry(ts[id]) then IncrementRetry(ts, id) else WithStatus(ts, id, Failed)
  }

  /** `cancel_task`: only rows that are not finished. */
  function AfterCancel(ts: Table, id: nat): Table {
    if id >= |ts| || Terminal(ts[id]) then ts else WithStatus(ts, id, Cancelled)
  }

  /** What becomes of a failed task: one retry more and pending while the limit allows it, failed for good otherwise. */
  lemma FailedTask(ts: Table, id: nat)
    requires id < |ts|
    ensures var (t, r) := (ts[id], AfterFailure(ts, id));
            && |r| == |ts| && (forall i :: 0 <= i < |ts| && i != id ==> r[i] == ts[i])
            && (t.retryCount < t.maxRetries ==> r[id] == t.(retryCount := t.retryCount + 1, status := Pending))
            && (t.retryCount >= t.maxRetries ==> r[id] == t.(status := Failed))
  {
  }

  /** What becomes of a task whose cancellation is asked for. */
  lemma CancelledTask(ts: Table, id: nat)
    requires id < |ts|
    ensures var (t, r) := (ts[id], AfterCancel(ts, id));
            && |r| == |ts| && (forall i :: 0 <= i < |ts| && i != id ==> r[i] == ts[i])
            && r[id] == if t.status == Pending || t.status == Status.Running then t.(status := Cancelled) else t
  {
  }

  lemma {:induction false} NoRobotsNoDispatch(sqrt: real -> real, ts: Table, rows: seq<Row>)
    ensures DispatchRows(sqrt, ts, rows, []) == ts
    decreases |rows|
  {
    if rows != [] {
      assert Decide(sqrt, rows[0].task, []).None?;
      NoRobotsNoDispatch(sqrt, ts, rows[1..]);
    }
  }

  class TaskStore {
    var tasks: Table

    constructor ()
      ensures tasks == []
    {
      tasks := [];
    }

    method CreateTask(req: Request) returns (ok: bool)
      modifies this
      ensures tasks == Scheduler.CreateTask(old(tasks), req)
      ensures ok == RequiredCapabilities(req.taskType).Some?
    {
      ok := RequiredCapabilities(req.taskType).Some?;
      if ok {
        tasks := tasks + [NewTask(req)];
      }
    }

    method UpdateTaskStatus(id: nat, status: Status) returns (found: bool)
      modifies this
      ensures tasks == WithStatus(old(tasks), id, status) && found == (id < |tasks|)
    {
      found := id < |tasks|;
      if found {
        tasks := tasks[id := tasks[id].(status := status)];
      }
    }

    method SetTaskFailed(id: nat) returns (found: bool)
      modifies this
      ensures tasks == AfterFailure(old(tasks), id) && found == (id < |tasks|)
    {
      if id >= |tasks| {
        return false;
      }
      var task := tasks[id];
      if task.retryCount < task.maxRetries {
        tasks := tasks[id := task.(retryCount := task.retryCount + 1, status := Pending)];
        found := true;
      } else {
        found := UpdateTaskStatus(id, Failed);
      }
    }

    method SetTaskCompleted(id: nat) returns (found: bool)
      modifies this
      ensures |tasks| == |old(tasks)| && found == (id < |tasks|)
      ensures found ==> tasks[id] == old(tasks)[id].(status := Completed)
      ensures forall i :: 0 <= i < |tasks| && i != id ==> tasks[i] == old(tasks)[i]
    {
      found := UpdateTaskStatus(id, Completed);
    }

    method CancelTask(id: nat) returns (r: Cancellation)
      modifies this
      ensures r == if id >= |old(tasks)| then NotFound
                   else if old(tasks)[id].status == Pending || old(tasks)[id].status == Status.Running then Accepted
                   else AlreadyTerminal
      ensures tasks == AfterCancel(old(tasks), id)
    {
      if id >= |tasks| {
        return NotFound;
      }
      if Terminal(tasks[id]) {
        return AlreadyTerminal;
      }
      var _ := UpdateTaskStatus(id, Cancelled);
      r := Accepted;
    }

    /** The statements of `dispatch_task`: assign, then run. */
    method DispatchTask(id: nat, robot: Robot)
      requires id < |tasks|
      modifies this
      ensures tasks == Start(AssignRobot(old(tasks), id, robot.shortId), id)
    {
      tasks := tasks[id := tasks[id].(target := Some(robot.shortId))];
      tasks := tasks[id := tasks[id].(status := Running, dispatches := tasks[id].dispatches + 1)];
    }

    /** One pass of the dispatch loop. */
    method DispatchPending(sqrt: real -> real, robots: seq<Robot>)
      modifies this
      ensures tasks == DispatchRound(sqrt, old(tasks), robots)
    {
      hide ListPending, SelectBestRobot;
      var pending := ListPending(tasks);
      ListPendingRows(tasks);
      if pending == [] {
        return;
      }
      if robots == [] {
        NoRobotsNoDispatch(sqrt, tasks, pending);
        return;
      }
      assert pending[0..] == pending;
      for k := 0 to |pending|
        invariant |tasks| == |old(tasks)|
        invariant DispatchRound(sqrt, old(tasks), robots) == DispatchRows(sqrt, tasks, pending[k..], robots)
      {
        var row := pending[k];
        assert row in pending;
        assert pending[k..][0] == row && pending[k..][1..] == pending[k + 1..];
        if row.task.target.Some? {
          var robot := FindRobot(row.task.target.value, robots);
          if robot.Some? {
            DispatchTask(row.id, robot.value);
          }
        } else {
          var robot := SelectBestRobot(sqrt, row.task, robots);
          if robot.Some? {
            DispatchTask(row.id, robot.value);
          }
        }
      }
      assert pending[|pending|..] == [];
    }
  }

  // ---------- Undisturbed handlers ----------

  /** The statements of the dispatch loop for the rows of a round, all succeeding. */
  function RoundEvents(sqrt: real -> real, rows: seq<Row>, robots: seq<Robot>): seq<Lifecycle.Event> {
    if rows == [] then []
    else
      (if Decide(sqrt, rows[0].task, robots).Some? then [Lifecycle.Assign(true), Lifecycle.StartTask(true)]
       else [Lifecycle.Assign(true)])
      + RoundEvents(sqrt, rows[1..], robots)
  }

  lemma RunTwo(sqrt: real -> real, s: Lifecycle.State, a: Lifecycle.Event, b: Lifecycle.Event, es: seq<Lifecycle.Event>)
    ensures Lifecycle.Run(sqrt, s, [a] + es) == Lifecycle.Run(sqrt, Lifecycle.Step(sqrt, s, a), es)
    ensures Lifecycle.Run(sqrt, s, [a, b] + es) ==
              Lifecycle.Run(sqrt, Lifecycle.Step(sqrt, Lifecycle.Step(sqrt, s, a), b), es)
  {
    hide Lifecycle.Step;
    assert ([a] + es)[1..] == es && ([a, b] + es)[1..] == [b] + es && ([b] + es)[1..] == es;
  }

  lemma RunNone(sqrt: real -> real, s: Lifecycle.State)
    ensures Lifecycle.Run(sqrt, s, []) == s
  {
  }

  lemma {:induction false} RoundRows(sqrt: real -> real, s: Lifecycle.State)
    requires !s.started
    ensures Lifecycle.Run(sqrt, s, RoundEvents(sqrt, s.round, s.robots)) ==
              s.(tasks := DispatchRows(sqrt, s.tasks, s.round, s.robots), round := [])
    decreases |s.round|
  {
    hide Decide, Lifecycle.Run, AssignRobot, Start;
    if s.round == [] {
      RunNone(sqrt, s);
    } else {
      var more := RoundEvents(sqrt, s.round[1..], s.robots);
      RunTwo(sqrt, s, Lifecycle.Assign(true), Lifecycle.StartTask(true), more);
      RoundRows(sqrt, s.(tasks := DispatchRow(sqrt, s.tasks, s.round[0], s.robots), round := s.round[1..]));
    }
  }

  /** Undisturbed, the statements of a round amount to the round. */
  lemma RoundRefines(sqrt: real -> real, s: Lifecycle.State, robots: seq<Robot>)
    requires s.round == [] && robots != []
    ensures Lifecycle.Run(sqrt, s, [Lifecycle.BeginRound(robots)] + RoundEvents(sqrt, ListPending(s.tasks), robots)) ==
              s.(tasks := DispatchRound(sqrt, s.tasks, robots), robots := robots, started := false)
  {
    var rows := ListPending(s.tasks);
    var s' := Lifecycle.Step(sqrt, s, Lifecycle.BeginRound(robots));
    hide Lifecycle.Run, ListPending, DispatchRows, RoundEvents;
    RunTwo(sqrt, s, Lifecycle.BeginRound(robots), Lifecycle.Assign(true), RoundEvents(sqrt, rows, robots));
    RoundRows(sqrt, s');
  }

  /** Undisturbed, reading and writing a failed task amounts to `AfterFailure`. */
  lemma FailureRefines(sqrt: real -> real, s: Lifecycle.State, id: nat)
    requires s.failing.None?
    ensures Lifecycle.Run(sqrt, s, [Lifecycle.ReadFailed(id), Lifecycle.WriteFailed(true)]) ==
              s.(tasks := AfterFailure(s.tasks, id))
  {
    RunTwo(sqrt, s, Lifecycle.ReadFailed(id), Lifecycle.WriteFailed(true), []);
    assert [Lifecycle.ReadFailed(id), Lifecycle.WriteFailed(true)] + [] ==
           [Lifecycle.ReadFailed(id), Lifecycle.WriteFailed(true)];
  }

  /** Statements that fail: the round goes on with the next row, which leaves this one as it was, or pending with a target
      if only the second statement failed; a failed write of a failure is not repeated. */
  lemma FailedStatements(sqrt: real -> real, s: Lifecycle.State, robot: Robot)
    requires s.round != [] && !s.started && s.round[0].id < |s.tasks|
    requires Decide(sqrt, s.round[0].task, s.robots) == Some(robot)
    ensures Lifecycle.Run(sqrt, s, [Lifecycle.Assign(false)]) == s.(round := s.round[1..])
    ensures var id := s.round[0].id;
            Lifecycle.Run(sqrt, s, [Lifecycle.Assign(true), Lifecycle.StartTask(false)]) ==
              s.(tasks := s.tasks[id := s.tasks[id].(target := Some(robot.shortId))], round := s.round[1..])
    ensures Lifecycle.Run(sqrt, s, [Lifecycle.WriteFailed(false)]) == s.(failing := None)
  {
    hide Decide, Lifecycle.Run;
    var assign, start := Lifecycle.Assign(true), Lifecycle.StartTask(false);
    RunOne(sqrt, s, Lifecycle.Assign(false));
    RunOne(sqrt, s, Lifecycle.WriteFailed(false));
    RunTwo(sqrt, s, assign, start, []);
    assert [assign, start] + [] == [assign, start];
    RunNone(sqrt, Lifecycle.Step(sqrt, Lifecycle.Step(sqrt, s, assign), start));
  }

  lemma RunOne(sqrt: real -> real, s: Lifecycle.State, e: Lifecycle.Event)
    ensures Lifecycle.Run(sqrt, s, [e]) == Lifecycle.Step(sqrt, s, e)
  {
    hide Lifecycle.Step;
    assert [e][1..] == [];
  }

  /** A completion is one statement, and the last word on the task's status until another statement writes it. */
  lemma CompletionRefines(sqrt: real -> real, s: Lifecycle.State, id: nat)
    requires s.failing.None? && id < |s.tasks|
    ensures Lifecycle.Run(sqrt, s, [Lifecycle.Complete(id)]) ==
              s.(tasks := s.tasks[id := s.tasks[id].(status := Completed)])
  {
    hide Lifecycle.Run;
    RunOne(sqrt, s, Lifecycle.Complete(id));
  }

  /** The statements of one cancel request: the write follows only on a read that did not refuse. */
  function CancelEvents(s: Lifecycle.State, id: nat): seq<Lifecycle.Event> {
    if id >= |s.tasks| || Terminal(s.tasks[id]) then [Lifecycle.ReadCancel(id)]
    else [Lifecycle.ReadCancel(id), Lifecycle.WriteCancel(id)]
  }

  /** Undisturbed, the statements of a cancel request amount to `AfterCancel`, whatever other requests are under way. */
  lemma CancelRefines(sqrt: real -> real, s: Lifecycle.State, id: nat)
    ensures Lifecycle.Run(sqrt, s, CancelEvents(s, id)) == s.(tasks := AfterCancel(s.tasks, id))
  {
    hide Lifecycle.Run;
    var read, write := Lifecycle.ReadCancel(id), Lifecycle.WriteCancel(id);
    RunTwo(sqrt, s, read, write, []);
    assert [read] + [] == [read] && [read, write] + [] == [read, write];
    RunNone(sqrt, Lifecycle.Step(sqrt, s, read));
    RunNone(sqrt, Lifecycle.Step(sqrt, Lifecycle.Step(sqrt, s, read), write));
    PutAndTaken(s.cancelling, id);
  }

  lemma PutAndTaken(ids: multiset<nat>, id: nat)
    ensures id in ids + multiset{id} && ids + multiset{id} - multiset{id} == ids
  {
  }

  // ---------- The bound on dispatches is attained ----------

  function PatrolRequest(m: i16): Request {
    Request("patrol", None, None, None, None, None, Some(m))
  }

  const WORKER := Robot(1, 1, Some(100), map["movement" := true], None, None, 0)

  /** The patrol, with `m` retries allowed, after `r` dispatches that ended with the robot offline and then `k` that
      ended in failure. */
  function Waiting(m: i16, r: nat, k: nat): Lifecycle.State {
    var t := NewTask(PatrolRequest(m));
    var waiting := t.(retryCount := k, dispatches := r + k, requeues := r, target := if k == 0 then None else Some(1));
    Lifecycle.State([waiting], [], if r + k == 0 then [] else [WORKER], false, None, multiset{})
  }

  /** One round, and then what becomes of the dispatch. */
  function Attempt(sqrt: real -> real, m: i16, r: nat, k: nat, end: seq<Lifecycle.Event>): seq<Lifecycle.Event> {
    [Lifecycle.BeginRound([WORKER])] + RoundEvents(sqrt, ListPending(Waiting(m, r, k).tasks), [WORKER]) + end
  }

  const FAILURE: seq<Lifecycle.Event> := [Lifecycle.ReadFailed(0), Lifecycle.WriteFailed(true)]
  const LOSS: seq<Lifecycle.Event> := [Lifecycle.RobotOffline(1)]

  /** Failures until the retries are used up. */
  function Failures(sqrt: real -> real, m: i16, r: nat, k: nat): seq<Lifecycle.Event>
    decreases m - k
  {
    Attempt(sqrt, m, r, k, FAILURE) + if k < m then Failures(sqrt, m, r, k + 1) else []
  }

  /** The robot is lost until `requeues` losses have happened, and then the attempts fail. */
  function Losses(sqrt: real -> real, m: i16, r: nat, requeues: nat): seq<Lifecycle.Event>
    requires r <= requeues
    decreases requeues - r
  {
    if r == requeues then Failures(sqrt, m, r, 0)
    else Attempt(sqrt, m, r, 0, LOSS) + Losses(sqrt, m, r + 1, requeues)
  }

  lemma {:induction false} RunAppend(sqrt: real -> real, s: Lifecycle.State, xs: seq<Lifecycle.Event>,
                                     ys: seq<Lifecycle.Event>)
    ensures Lifecycle.Run(sqrt, s, xs + ys) == Lifecycle.Run(sqrt, Lifecycle.Run(sqrt, s, xs), ys)
    decreases |xs|
  {
    hide Lifecycle.Step;
    if xs == [] {
      assert xs + ys == ys;
    } else {
      assert (xs + ys)[1..] == xs[1..] + ys;
      RunAppend(sqrt, Lifecycle.Step(sqrt, s, xs[0]), xs[1..], ys);
    }
  }

  lemma WorkerChosen(sqrt: real -> real, m: i16, r: nat, k: nat)
    ensures Decide(sqrt, Waiting(m, r, k).tasks[0], [WORKER]) == Some(WORKER)
  {
    var t := Waiting(m, r, k).tasks[0];
    if k == 0 {
      assert Eligible(WORKER, t);
      hide Eligible, Score;
      assert BestOf(sqrt, t, [WORKER], 0) == None;
    }
  }

  /** The patrol on its way. */
  function Running(m: i16, r: nat, k: nat): Lifecycle.State {
    var t := Waiting(m, r, k).tasks[0];
    var running := t.(target := Some(1), status := Status.Running, dispatches := t.dispatches + 1);
    Lifecycle.State([running], [], [WORKER], false, None, multiset{})
  }

  lemma AttemptDispatches(sqrt: real -> real, m: i16, r: nat, k: nat, end: seq<Lifecycle.Event>)
    ensures Lifecycle.Run(sqrt, Waiting(m, r, k), Attempt(sqrt, m, r, k, end)) ==
              Lifecycle.Run(sqrt, Running(m, r, k), end)
  {
    hide Lifecycle.Run, ListPending, RoundEvents, DispatchRound, Decide;
    var s := Waiting(m, r, k);
    var round := [Lifecycle.BeginRound([WORKER])] + RoundEvents(sqrt, ListPending(s.tasks), [WORKER]);
    RunAppend(sqrt, s, round, end);
    RoundRefines(sqrt, s, [WORKER]);
    RoundPointwise(sqrt, s.tasks, [WORKER], 0);
    WorkerChosen(sqrt, m, r, k);
    assert DispatchRound(sqrt, s.tasks, [WORKER]) == Running(m, r, k).tasks;
  }

  ghost predicate UsedUp(s: Lifecycle.State, m: i16, requeues: nat) {
    && |s.tasks| == 1 && s.tasks[0].status == Failed && s.tasks[0].maxRetries == m && s.tasks[0].requeues == requeues
    && s.tasks[0].dispatches == 1 + Lifecycle.Positive(m) + requeues
  }

  lemma AttemptFails(sqrt: real -> real, m: i16, r: nat, k: nat)
    requires k <= Lifecycle.Positive(m)
    ensures var s := Lifecycle.Run(sqrt, Waiting(m, r, k), Attempt(sqrt, m, r, k, FAILURE));
            && (k < m ==> s == Waiting(m, r, k + 1))
            && (k >= m ==> UsedUp(s, m, r))
  {
    hide Lifecycle.Run, Attempt;
    AttemptDispatches(sqrt, m, r, k, FAILURE);
    FailureRefines(sqrt, Running(m, r, k), 0);
    if k < m {
      assert AfterFailure(Running(m, r, k).tasks, 0) == Waiting(m, r, k + 1).tasks;
    }
  }

  lemma AttemptLost(sqrt: real -> real, m: i16, r: nat)
    ensures Lifecycle.Run(sqrt, Waiting(m, r, 0), Attempt(sqrt, m, r, 0, LOSS)) == Waiting(m, r + 1, 0)
  {
    hide Attempt;
    AttemptDispatches(sqrt, m, r, 0, LOSS);
    assert LOSS[1..] == [];
    assert RequeueAll(Running(m, r, 0).tasks, 1) == Waiting(m, r + 1, 0).tasks;
  }

  lemma {:induction false} AllAttemptsFail(sqrt: real -> real, m: i16, r: nat, k: nat)
    requires k <= Lifecycle.Positive(m)
    ensures UsedUp(Lifecycle.Run(sqrt, Waiting(m, r, k), Failures(sqrt, m, r, k)), m, r)
    decreases m - k
  {
    hide Lifecycle.Run, Attempt, Waiting, UsedUp;
    AttemptFails(sqrt, m, r, k);
    var attempt := Attempt(sqrt, m, r, k, FAILURE);
    if k < m {
      RunAppend(sqrt, Waiting(m, r, k), attempt, Failures(sqrt, m, r, k + 1));
      AllAttemptsFail(sqrt, m, r, k + 1);
    } else {
      assert attempt + [] == attempt;
    }
  }

  lemma {:induction false} LostAndFailed(sqrt: real -> real, m: i16, r: nat, requeues: nat)
    requires r <= requeues
    ensures UsedUp(Lifecycle.Run(sqrt, Waiting(m, r, 0), Losses(sqrt, m, r, requeues)), m, requeues)
    decreases requeues - r
  {
    hide Lifecycle.Run, Attempt, Waiting, UsedUp;
    if r == requeues {
      AllAttemptsFail(sqrt, m, r, 0);
    } else {
      AttemptLost(sqrt, m, r);
      RunAppend(sqrt, Waiting(m, r, 0), Attempt(sqrt, m, r, 0, LOSS), Losses(sqrt, m, r + 1, requeues));
      LostAndFailed(sqrt, m, r + 1, requeues);
    }
  }

  /** The bound of `Lifecycle.BoundedDispatch` is exact: for every retry limit, negative ones included, and every number
      of offline requeues some run dispatches a task once, once per requeue and once per retry, before it fails for
      good. */
  lemma DispatchBoundAttained(sqrt: real -> real, m: i16, requeues: nat) returns (es: seq<Lifecycle.Event>)
    ensures var s := Lifecycle.Run(sqrt, Lifecycle.EMPTY, es);
            && |s.tasks| == 1 && s.tasks[0].status == Failed
            && s.tasks[0].maxRetries == m && s.tasks[0].requeues == requeues
            && s.tasks[0].dispatches == 1 + Lifecycle.Positive(m) + requeues
  {
    hide Lifecycle.Run, Losses;
    var create := Lifecycle.Create(PatrolRequest(m));
    es := [create] + Losses(sqrt, m, 0, requeues);
    RunTwo(sqrt, Lifecycle.EMPTY, create, create, Losses(sqrt, m, 0, requeues));
    assert Lifecycle.Step(sqrt, Lifecycle.EMPTY, create) == Waiting(m, 0, 0);
    LostAndFailed(sqrt, m, 0, requeues);
  }
}
