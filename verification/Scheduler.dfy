/** The task scheduler: the task table, robot selection and the dispatch round. */
module Scheduler {
  import opened Bytes
  import opened Outcomes
  import opened Sorting

  // ---------- Tasks and robots ----------

  type i32 = x: int | -0x8000_0000 <= x < 0x8000_0000

  datatype Status = Pending | Running | Completed | Failed | Cancelled

  /** A row of the task table. The last two fields count dispatches and requeues; no operation looks at them. */
  datatype Task = Task(taskType: string, priority: i16, target: Option<i16>, preferred: Option<i16>,
                       x: Option<i32>, y: Option<i32>, status: Status, retryCount: int, maxRetries: i16,
                       dispatches: nat, requeues: nat)

  predicate Terminal(t: Task) {
    t.status == Completed || t.status == Failed || t.status == Cancelled
  }

  predicate CanRetry(t: Task) {
    t.retryCount < t.maxRetries
  }

  datatype Robot = Robot(shortId: i16, status: i16, battery: Option<i16>, capabilities: map<string, bool>,
                         x: Option<i32>, y: Option<i32>, activeTasks: nat)

  function RequiredCapabilities(taskType: string): Option<seq<string>> {
    if taskType == "patrol" || taskType == "custom" then Some(["movement"])
    else if taskType == "dialogue" then Some(["movement", "audio", "expression"])
    else if taskType == "transport" || taskType == "charge" then Some(["movement", "charging"])
    else if taskType == "formation" then Some(["movement", "swarm"])
    else None
  }

  // ---------- Selecting a robot ----------

  function Abs(x: int): int {
    if x < 0 then -x else x
  }

  function SquaredLength(dx: real, dy: real): real {
    dx * dx + dy * dy
  }

  /** The straight distance, as a part of 50 metres. */
  function DistanceScore(sqrt: real -> real, tx: Option<i32>, ty: Option<i32>, rx: Option<i32>, ry: Option<i32>): real {
    if tx.Some? && ty.Some? && rx.Some? && ry.Some? then
      sqrt(SquaredLength(Abs(tx.value - rx.value) as real, Abs(ty.value - ry.value) as real)) / 5000.0
    else 0.5
  }

  function LoadScore(activeTasks: nat): real {
    if activeTasks >= 10 then 1.0 else activeTasks as real / 10.0
  }

  function BatteryScore(battery: Option<i16>): real {
    1.0 - (if battery.Some? then battery.value else 100) as real / 100.0
  }

  function AffinityScore(preferred: Option<i16>, shortId: i16): real {
    if preferred == Some(shortId) then 0.0 else if preferred.Some? then 1.0 else 0.5
  }

  /** Lower is better. The square root is a parameter. */
  function Score(sqrt: real -> real, r: Robot, t: Task): real {
    0.30 * DistanceScore(sqrt, t.x, t.y, r.x, r.y) + 0.20 * LoadScore(r.activeTasks) + 0.20 * BatteryScore(r.battery)
    + 0.30 * AffinityScore(t.preferred, r.shortId)
  }

  /** Online, more than 20% battery, and every capability the task type asks for. */
  predicate Eligible(r: Robot, t: Task) {
    && RequiredCapabilities(t.taskType).Some?
    && r.status == 1
    && (if r.battery.Some? then r.battery.value else 0) > 20
    && forall c :: c in RequiredCapabilities(t.taskType).value ==> c in r.capabilities && r.capabilities[c]
  }

  /** The running minimum over the first `n` robots: a later robot wins only with a smaller score. */
  function BestOf(sqrt: real -> real, t: Task, robots: seq<Robot>, n: nat): (best: Option<nat>)
    requires n <= |robots|
    ensures best.Some? ==> best.value < n
  {
    if n == 0 then None
    else
      var best := BestOf(sqrt, t, robots, n - 1);
      if !Eligible(robots[n - 1], t) then best
      else if best.Some? && Score(sqrt, robots[best.value], t) <= Score(sqrt, robots[n - 1], t) then best
      else Some(n - 1)
  }

  function SelectBestRobot(sqrt: real -> real, t: Task, robots: seq<Robot>): Option<Robot> {
    match BestOf(sqrt, t, robots, |robots|) case Some(i) => Some(robots[i]) case None => None
  }

  /** Robot `i` is eligible, none scores lower, and none before it scores as low. */
  ghost predicate FirstMinimum(sqrt: real -> real, t: Task, robots: seq<Robot>, i: nat) {
    && i < |robots| && Eligible(robots[i], t)
    && (forall j :: 0 <= j < |robots| && Eligible(robots[j], t) ==>
          Score(sqrt, robots[i], t) <= Score(sqrt, robots[j], t))
    && (forall j :: 0 <= j < i && Eligible(robots[j], t) ==> Score(sqrt, robots[i], t) < Score(sqrt, robots[j], t))
  }

  lemma MinimumInRange(sqrt: real -> real, t: Task, robots: seq<Robot>, i: nat)
    requires FirstMinimum(sqrt, t, robots, i)
    ensures i < |robots| && Eligible(robots[i], t)
  {
  }

  lemma {:induction false} BestSoFar(sqrt: real -> real, t: Task, robots: seq<Robot>, n: nat)
    requires n <= |robots|
    ensures match BestOf(sqrt, t, robots, n)
            case None => forall j :: 0 <= j < n ==> !Eligible(robots[j], t)
            case Some(i) => FirstMinimum(sqrt, t, robots[..n], i)
  {
    hide Eligible, Score;
    if n > 0 {
      BestSoFar(sqrt, t, robots, n - 1);
      assert forall j :: 0 <= j < n - 1 ==> robots[..n - 1][j] == robots[..n][j] == robots[j];
      assert robots[..n][n - 1] == robots[n - 1];
    }
  }

  /** The selected robot is the first eligible one of minimum score; none is selected exactly when none is
      eligible. */
  lemma SelectsFirstMinimum(sqrt: real -> real, t: Task, robots: seq<Robot>)
    ensures SelectBestRobot(sqrt, t, robots).None? <==> forall r :: r in robots ==> !Eligible(r, t)
    ensures forall i: nat :: FirstMinimum(sqrt, t, robots, i) ==> SelectBestRobot(sqrt, t, robots) == Some(robots[i])
    ensures SelectBestRobot(sqrt, t, robots).Some? ==> exists i: nat :: FirstMinimum(sqrt, t, robots, i)
  {
    hide Eligible, Score;
    BestSoFar(sqrt, t, robots, |robots|);
    assert robots[..|robots|] == robots;
    match BestOf(sqrt, t, robots, |robots|)
    case None =>
    case Some(best) =>
      assert robots[best] in robots;
      forall i: nat | FirstMinimum(sqrt, t, robots, i) ensures i == best {
      }
  }

  ghost predicate IsFirstWith(shortId: i16, robots: seq<Robot>, i: int) {
    0 <= i < |robots| && robots[i].shortId == shortId && forall j :: 0 <= j < i ==> robots[j].shortId != shortId
  }

  function FindRobot(shortId: i16, robots: seq<Robot>): Option<Robot> {
    if robots == [] then None
    else if robots[0].shortId == shortId then Some(robots[0])
    else FindRobot(shortId, robots[1..])
  }

  /** The robot found is the first with the short id asked for; none is found exactly when no robot has it. */
  lemma {:induction false} FoundRobot(shortId: i16, robots: seq<Robot>)
    ensures match FindRobot(shortId, robots)
            case None => forall r :: r in robots ==> r.shortId != shortId
            case Some(robot) => exists i :: IsFirstWith(shortId, robots, i) && robots[i] == robot
  {
    if robots != [] {
      if robots[0].shortId == shortId {
        assert IsFirstWith(shortId, robots, 0);
      } else {
        FoundRobot(shortId, robots[1..]);
        if FindRobot(shortId, robots[1..]).Some? {
          var i :| IsFirstWith(shortId, robots[1..], i) && robots[1..][i] == FindRobot(shortId, robots).value;
          assert forall j :: 0 < j < |robots| ==> robots[j] == robots[1..][j - 1];
          assert IsFirstWith(shortId, robots, i + 1);
        }
      }
    }
  }

  /** Where a round sends a task: to its target if that is available, to the best robot if it has none. */
  function Decide(sqrt: real -> real, t: Task, robots: seq<Robot>): Option<Robot> {
    match t.target
    case Some(id) => FindRobot(id, robots)
    case None => SelectBestRobot(sqrt, t, robots)
  }

  // ---------- Statements on the task table ----------

  /** Rows by id, in order of creation. */
  type Table = seq<Task>

  function WithStatus(ts: Table, id: nat, status: Status): (r: Table)
    ensures |r| == |ts|
  {
    if id < |ts| then ts[id := ts[id].(status := status)] else ts
  }

  function AssignRobot(ts: Table, id: nat, shortId: i16): (r: Table)
    ensures |r| == |ts|
  {
    if id < |ts| then ts[id := ts[id].(target := Some(shortId))] else ts
  }

  /** The second statement of a dispatch: the task runs. */
  function Start(ts: Table, id: nat): (r: Table)
    ensures |r| == |ts|
  {
    if id < |ts| then ts[id := ts[id].(status := Running, dispatches := ts[id].dispatches + 1)] else ts
  }

  function IncrementRetry(ts: Table, id: nat): (r: Table)
    ensures |r| == |ts|
  {
    if id < |ts| then ts[id := ts[id].(retryCount := ts[id].retryCount + 1, status := Pending)] else ts
  }

  function Requeued(t: Task, shortId: i16): Task {
    if t.target == Some(shortId) && t.status == Running
    then t.(status := Pending, target := None, requeues := t.requeues + 1) else t
  }

  function RequeueAll(ts: Table, shortId: i16): (r: Table)
    ensures |r| == |ts|
  {
    seq(|ts|, i requires 0 <= i < |ts| => Requeued(ts[i], shortId))
  }

  /** `max_retries as i16` of a 32-bit integer keeps its low 16 bits. */
  function TruncateRetries(n: i32): i16 {
    Signed16(n % 0x1_0000)
  }

  datatype Request = Request(taskType: string, priority: Option<i16>, target: Option<i16>, preferred: Option<i16>,
                             x: Option<i32>, y: Option<i32>, maxRetries: Option<i32>)

  function NewTask(req: Request): Task {
    Task(req.taskType, if req.priority.Some? then req.priority.value else 128, req.target, req.preferred, req.x, req.y,
         Pending, 0, TruncateRetries(if req.maxRetries.Some? then req.maxRetries.value else 3), 0, 0)
  }

  function CreateTask(ts: Table, req: Request): Table {
    if RequiredCapabilities(req.taskType).Some? then ts + [NewTask(req)] else ts
  }

  /** A copy of a row, as a round read it. */
  datatype Row = Row(id: nat, task: Task)

  function PendingRows(ts: Table, n: nat): (rows: seq<Row>)
    requires n <= |ts|
    ensures forall i :: 0 <= i < |rows| ==> rows[i].id < n && rows[i].task == ts[rows[i].id]
    ensures forall i, j :: 0 <= i < j < |rows| ==> rows[i].id != rows[j].id
  {
    if n == 0 then []
    else PendingRows(ts, n - 1) + (if ts[n - 1].status == Pending then [Row(n - 1, ts[n - 1])] else [])
  }

  function HigherPriority(a: Row, b: Row): bool {
    a.task.priority < b.task.priority
  }

  /** `ORDER BY priority, created_at`. */
  function ListPending(ts: Table): seq<Row> {
    Sort(HigherPriority, PendingRows(ts, |ts|))
  }

  ghost predicate UniqueIds(rows: seq<Row>) {
    forall i, j :: 0 <= i < j < |rows| ==> rows[i].id != rows[j].id
  }

  /** By priority, the smallest number first, and by id where priorities are equal. */
  ghost predicate Arranged(rows: seq<Row>) {
    forall i, j :: 0 <= i < j < |rows| ==>
      || rows[i].task.priority < rows[j].task.priority
      || (rows[i].task.priority == rows[j].task.priority && rows[i].id < rows[j].id)
  }

  lemma ArrangedSnoc(rows: seq<Row>, last: Row)
    requires Arranged(rows)
    requires forall r :: r in rows ==>
               r.task.priority < last.task.priority || (r.task.priority == last.task.priority && r.id < last.id)
    ensures Arranged(rows + [last])
  {
  }

  lemma {:induction false} InsertArranges(rows: seq<Row>, x: Row)
    requires Arranged(rows) && forall r :: r in rows ==> r.id < x.id
    ensures Arranged(Insert(HigherPriority, rows, x))
  {
    if rows != [] {
      var front, last := rows[..|rows| - 1], rows[|rows| - 1];
      if HigherPriority(x, last) {
        InsertArranges(front, x);
        MembersOf(front, Insert(HigherPriority, front, x), x);
        ArrangedSnoc(Insert(HigherPriority, front, x), last);
      } else {
        ArrangedSnoc(rows, x);
      }
    }
  }

  lemma SortArrangesSnoc(front: seq<Row>, x: Row)
    requires Arranged(Sort(HigherPriority, front)) && forall r :: r in front ==> r.id < x.id
    ensures Arranged(Sort(HigherPriority, front + [x]))
  {
    assert (front + [x])[..|front|] == front;
    hide Arranged, Insert;
    var s := Sort(HigherPriority, front);
    forall r | r in s ensures r.id < x.id {
      assert r in multiset(s);
    }
    InsertArranges(s, x);
  }

  lemma PendingBelow(ts: Table, n: nat)
    requires n <= |ts|
    ensures forall r :: r in PendingRows(ts, n) ==> r.id < n
  {
  }

  lemma {:induction false} PendingArranged(ts: Table, n: nat)
    requires n <= |ts|
    ensures Arranged(Sort(HigherPriority, PendingRows(ts, n)))
  {
    hide Sort, Arranged;
    if n == 0 {
      NothingArranged();
    } else {
      PendingArranged(ts, n - 1);
      PendingBelow(ts, n - 1);
      if ts[n - 1].status == Pending {
        SortArrangesSnoc(PendingRows(ts, n - 1), Row(n - 1, ts[n - 1]));
      } else {
        assert PendingRows(ts, n - 1) + [] == PendingRows(ts, n - 1);
      }
    }
  }

  lemma NothingArranged()
    ensures Arranged(Sort(HigherPriority, []))
  {
  }

  lemma ArrangedUnique(list: seq<Row>, rows: seq<Row>)
    requires Arranged(list) && multiset(list) == multiset(rows) && UniqueIds(rows)
    ensures UniqueIds(list)
  {
    forall i, j | 0 <= i < j < |list| ensures list[i].id != list[j].id {
      assert list[i] in multiset(list) && list[j] in multiset(list);
      assert list[i] in rows && list[j] in rows;
    }
  }

  /** The rows a round reads: every pending task once, the smallest priority number first, and tasks of equal
      priority in the order of their creation. */
  lemma ListPendingRows(ts: Table)
    ensures UniqueIds(ListPending(ts))
    ensures forall r :: r in ListPending(ts) ==> r.id < |ts| && r.task == ts[r.id] && r.task.status == Pending
    ensures forall id :: 0 <= id < |ts| && ts[id].status == Pending ==> Row(id, ts[id]) in ListPending(ts)
    ensures forall i, j :: 0 <= i < j < |ListPending(ts)| ==>
              || ListPending(ts)[i].task.priority < ListPending(ts)[j].task.priority
              || (ListPending(ts)[i].task.priority == ListPending(ts)[j].task.priority
                  && ListPending(ts)[i].id < ListPending(ts)[j].id)
  {
    hide Sort;
    var rows := PendingRows(ts, |ts|);
    PendingArranged(ts, |ts|);
    ArrangedUnique(ListPending(ts), rows);
    forall r | r in ListPending(ts) ensures r in rows {
      assert r in multiset(ListPending(ts));
    }
    PendingAll(ts, |ts|);
    forall id | 0 <= id < |ts| && ts[id].status == Pending ensures Row(id, ts[id]) in ListPending(ts) {
      assert Row(id, ts[id]) in multiset(rows);
    }
  }

  lemma {:induction false} PendingAll(ts: Table, n: nat)
    requires n <= |ts|
    ensures forall id :: 0 <= id < n && ts[id].status == Pending ==> Row(id, ts[id]) in PendingRows(ts, n)
    ensures forall r :: r in PendingRows(ts, n) ==> r.task.status == Pending && r.id < n && r.task == ts[r.id]
  {
    if n > 0 {
      PendingAll(ts, n - 1);
    }
  }

  // ---------- One undisturbed round ----------

  function DispatchRow(sqrt: real -> real, ts: Table, row: Row, robots: seq<Robot>): (r: Table)
    ensures |r| == |ts|
  {
    match Decide(sqrt, row.task, robots)
    case Some(robot) => Start(AssignRobot(ts, row.id, robot.shortId), row.id)
    case None => ts
  }

  function DispatchRows(sqrt: real -> real, ts: Table, rows: seq<Row>, robots: seq<Robot>): (r: Table)
    ensures |r| == |ts|
    decreases |rows|
  {
    if rows == [] then ts else DispatchRows(sqrt, DispatchRow(sqrt, ts, rows[0], robots), rows[1..], robots)
  }

  function DispatchRound(sqrt: real -> real, ts: Table, robots: seq<Robot>): (r: Table)
    ensures |r| == |ts|
  {
    DispatchRows(sqrt, ts, ListPending(ts), robots)
  }

  /** What a round makes of one pending task. */
  function Dispatched(sqrt: real -> real, t: Task, robots: seq<Robot>): Task {
    match Decide(sqrt, t, robots)
    case Some(robot) => t.(target := Some(robot.shortId), status := Running, dispatches := t.dispatches + 1)
    case None => t
  }

  lemma {:induction false} RowsPointwise(sqrt: real -> real, ts: Table, rows: seq<Row>, robots: seq<Robot>, id: nat)
    requires UniqueIds(rows) && forall r :: r in rows ==> r.id < |ts| && r.task == ts[r.id]
    requires id < |ts|
    ensures DispatchRows(sqrt, ts, rows, robots)[id] ==
              if Row(id, ts[id]) in rows then Dispatched(sqrt, ts[id], robots) else ts[id]
    decreases |rows|
  {
    hide Decide;
    if rows != [] {
      var row := rows[0];
      var ts' := DispatchRow(sqrt, ts, row, robots);
      forall r | r in rows[1..] ensures r in rows && r.id != row.id {
        var i :| 0 <= i < |rows[1..]| && rows[1..][i] == r;
        assert rows[i + 1] == r;
      }
      assert forall i :: 0 <= i < |ts| && i != row.id ==> ts'[i] == ts[i];
      RowsPointwise(sqrt, ts', rows[1..], robots, id);
      assert Row(id, ts[id]) in rows <==> id == row.id || Row(id, ts[id]) in rows[1..];
    }
  }

  /** A round sends every pending task to the robot chosen for it, whatever the order, and touches no other. */
  lemma RoundPointwise(sqrt: real -> real, ts: Table, robots: seq<Robot>, id: nat)
    requires id < |ts|
    ensures DispatchRound(sqrt, ts, robots)[id] ==
              if ts[id].status == Pending then Dispatched(sqrt, ts[id], robots) else ts[id]
  {
    hide Decide, DispatchRows, ListPending;
    ListPendingRows(ts);
    RowsPointwise(sqrt, ts, ListPending(ts), robots, id);
  }

  ghost predicate RunsOn(sqrt: real -> real, t: Task, robots: seq<Robot>, i: nat, dispatched: Task) {
    FirstMinimum(sqrt, t, robots, i) && dispatched.target == Some(robots[i].shortId)
  }

  /** For a pending task without a target: it runs on the first eligible robot of minimum score, or it stays
      pending, which happens exactly when no robot of the snapshot is eligible. */
  lemma UntargetedTask(sqrt: real -> real, ts: Table, robots: seq<Robot>, id: nat)
    requires id < |ts| && ts[id].status == Pending && ts[id].target == None
    ensures var t := DispatchRound(sqrt, ts, robots)[id];
            && (t.status == Pending <==> forall r :: r in robots ==> !Eligible(r, ts[id]))
            && (t.status != Pending ==>
                  && t.status == Running && t.dispatches == ts[id].dispatches + 1
                  && exists i: nat :: RunsOn(sqrt, ts[id], robots, i, t))
  {
    hide DispatchRound, Eligible, FirstMinimum, SelectBestRobot;
    RoundPointwise(sqrt, ts, robots, id);
    SelectsFirstMinimum(sqrt, ts[id], robots);
    if SelectBestRobot(sqrt, ts[id], robots).Some? {
      var i: nat :| FirstMinimum(sqrt, ts[id], robots, i);
      MinimumInRange(sqrt, ts[id], robots, i);
      assert RunsOn(sqrt, ts[id], robots, i, DispatchRound(sqrt, ts, robots)[id]);
    }
  }

  /** For a pending task with a target: it runs on its target and nowhere else, or it stays as it is, which happens
      exactly when the snapshot holds no robot with that id. Neither battery nor capabilities count. */
  lemma TargetedTask(sqrt: real -> real, ts: Table, robots: seq<Robot>, id: nat, shortId: i16)
    requires id < |ts| && ts[id].status == Pending && ts[id].target == Some(shortId)
    ensures DispatchRound(sqrt, ts, robots)[id] ==
              if exists r :: r in robots && r.shortId == shortId
              then ts[id].(status := Running, dispatches := ts[id].dispatches + 1) else ts[id]
  {
    hide DispatchRound;
    RoundPointwise(sqrt, ts, robots, id);
    FoundRobot(shortId, robots);
  }

  // ---------- New tasks and lost robots ----------

  /** A new task: unknown types are refused, and otherwise one pending row is added that holds the request, with
      priority 128 and 3 retries by default. A limit on the retries that does not fit 16 bits wraps around. */
  lemma CreatedTask(ts: Table, req: Request)
    ensures if req.taskType !in {"patrol", "dialogue", "transport", "charge", "formation", "custom"}
            then CreateTask(ts, req) == ts
            else
              && |CreateTask(ts, req)| == |ts| + 1 && CreateTask(ts, req)[..|ts|] == ts
              && var t := CreateTask(ts, req)[|ts|];
              && t.taskType == req.taskType && t.target == req.target && t.preferred == req.preferred
              && t.x == req.x && t.y == req.y && t.status == Pending && t.retryCount == 0
              && (match req.priority case Some(p) => t.priority == p case None => t.priority == 128)
              && (match req.maxRetries
                  case Some(n) =>
                    (t.maxRetries - n) % 65536 == 0 && (-32768 <= n <= 32767 ==> t.maxRetries == n)
                  case None => t.maxRetries == 3)
  {
  }

  /** When a robot goes offline, the tasks running on it become pending and lose their target; every other task stays as
      it is, and none is left running on that robot. */
  lemma RobotLost(ts: Table, shortId: i16, id: nat)
    requires id < |ts|
    ensures var (t, t') := (ts[id], RequeueAll(ts, shortId)[id]);
            && (t.status == Running && t.target == Some(shortId) ==>
                  t' == t.(status := Pending, target := None, requeues := t.requeues + 1))
            && (t.status != Running || t.target != Some(shortId) ==> t' == t)
            && !(t'.status == Running && t'.target == Some(shortId))
  {
  }
}
