/** What the criteria of robot selection weigh, one against another, and what that means for the choice. */
module Scoring {
  import opened Bytes
  import opened Outcomes
  import opened Scheduler

  // ---------- The criteria ----------

  lemma BatteryScores(b: i16, c: i16)
    ensures 0.20 * BatteryScore(Some(b)) - 0.20 * BatteryScore(Some(c)) == (c - b) as real / 500.0
    ensures BatteryScore(None) == BatteryScore(Some(100))
  {
    assert (c - b) as real == c as real - b as real;
  }

  /** One percent of battery is worth 0.002, and an unknown charge counts as 100%. */
  lemma BatteryWeighs(sqrt: real -> real, r: Robot, t: Task, b: i16, c: i16)
    ensures Score(sqrt, r.(battery := Some(b)), t) - Score(sqrt, r.(battery := Some(c)), t) == (c - b) as real / 500.0
    ensures Score(sqrt, r.(battery := None), t) == Score(sqrt, r.(battery := Some(100)), t)
  {
    hide DistanceScore, LoadScore, BatteryScore, AffinityScore;
    BatteryScores(b, c);
  }

  lemma LoadScores(m: nat, n: nat)
    requires m <= n
    ensures 0.20 * LoadScore(n) - 0.20 * LoadScore(m) ==
              if n <= 10 then (n - m) as real / 50.0 else if m <= 10 then (10 - m) as real / 50.0 else 0.0
  {
    assert (n - m) as real == n as real - m as real;
  }

  /** Each active task costs 0.02 up to the tenth, and nothing more from there on. */
  lemma LoadWeighs(sqrt: real -> real, r: Robot, t: Task, m: nat, n: nat)
    requires m <= n
    ensures Score(sqrt, r.(activeTasks := n), t) - Score(sqrt, r.(activeTasks := m), t) ==
              if n <= 10 then (n - m) as real / 50.0 else if m <= 10 then (10 - m) as real / 50.0 else 0.0
  {
    hide DistanceScore, LoadScore, BatteryScore, AffinityScore;
    LoadScores(m, n);
  }

  /** The preferred robot is ahead of any other by 0.30, and of itself without a preference by 0.15. */
  lemma AffinityWeighs(sqrt: real -> real, r: Robot, t: Task, other: i16)
    requires other != r.shortId
    ensures Score(sqrt, r, t.(preferred := Some(other))) - Score(sqrt, r, t.(preferred := Some(r.shortId))) == 0.30
    ensures Score(sqrt, r, t.(preferred := None)) - Score(sqrt, r, t.(preferred := Some(r.shortId))) == 0.15
    ensures Score(sqrt, r.(shortId := other), t.(preferred := Some(r.shortId)))
            - Score(sqrt, r, t.(preferred := Some(r.shortId))) == 0.30
    ensures Score(sqrt, r.(shortId := other), t.(preferred := None)) == Score(sqrt, r, t.(preferred := None))
  {
    hide DistanceScore, LoadScore, BatteryScore;
  }

  function Square(d: int): nat {
    d * d
  }

  lemma SquareOfReal(d: int)
    ensures d as real * d as real == Square(d) as real && Square(d) == Square(Abs(d))
  {
  }

  lemma SumOfSquares(a: int, b: int)
    ensures SquaredLength(Abs(a) as real, Abs(b) as real) == (Square(a) + Square(b)) as real
  {
    SquareOfReal(Abs(a));
    SquareOfReal(Abs(b));
    SquareOfReal(a);
    SquareOfReal(b);
  }

  lemma Distances(sqrt: real -> real, tx: i32, ty: i32, rx: i32, ry: i32)
    ensures DistanceScore(sqrt, Some(tx), Some(ty), Some(rx), Some(ry)) ==
              sqrt((Square(tx - rx) + Square(ty - ry)) as real) / 5000.0
  {
    SumOfSquares(tx - rx, ty - ry);
    hide Square, Abs, SquaredLength;
  }

  /** The distance weighs 0.30 for 50 metres, beyond them in proportion, and half of that if a coordinate is missing. */
  lemma DistanceWeighs(sqrt: real -> real, r: Robot, t: Task, tx: i32, ty: i32, rx: i32, ry: i32)
    requires r.x == Some(rx) && r.y == Some(ry) && t.x == Some(tx) && t.y == Some(ty)
    ensures var further :=
              0.30 * (sqrt(((tx - rx) * (tx - rx) + (ty - ry) * (ty - ry)) as real) / 5000.0) - 0.15;
            && Score(sqrt, r, t) - Score(sqrt, r.(x := None), t) == further
            && Score(sqrt, r, t) - Score(sqrt, r.(y := None), t) == further
            && Score(sqrt, r, t) - Score(sqrt, r, t.(x := None)) == further
            && Score(sqrt, r, t) - Score(sqrt, r, t.(y := None)) == further
  {
    Distances(sqrt, tx, ty, rx, ry);
    assert (tx - rx) * (tx - rx) == Square(tx - rx) && (ty - ry) * (ty - ry) == Square(ty - ry);
    MissingCoordinate(sqrt, t.x, t.y, r.x, r.y);
    hide DistanceScore, LoadScore, BatteryScore, AffinityScore, Square;
  }

  lemma MissingCoordinate(sqrt: real -> real, tx: Option<i32>, ty: Option<i32>, rx: Option<i32>, ry: Option<i32>)
    ensures DistanceScore(sqrt, None, ty, rx, ry) == DistanceScore(sqrt, tx, None, rx, ry) == 0.5
    ensures DistanceScore(sqrt, tx, ty, None, ry) == DistanceScore(sqrt, tx, ty, rx, None) == 0.5
  {
  }

  /** The best score of a robot whose distance is unknown: idle, preferred and fully charged. */
  lemma BestWithoutDistance(sqrt: real -> real, r: Robot, t: Task)
    requires r.x == None && r.activeTasks == 0 && r.battery == Some(100) && t.preferred == Some(r.shortId)
    ensures Score(sqrt, r, t) == 0.15
  {
  }

  // ---------- Who may be chosen ----------

  predicate Can(r: Robot, capability: string) {
    capability in r.capabilities && r.capabilities[capability]
  }

  /** A robot is a candidate if and only if it is online, reports more than 20% of battery, and has the capabilities of
      the task's type; an unknown type has no candidates. */
  lemma EligibleExactly(r: Robot, t: Task)
    ensures Eligible(r, t) <==>
              && r.status == 1 && r.battery.Some? && r.battery.value > 20 && Can(r, "movement")
              && (|| t.taskType == "patrol" || t.taskType == "custom"
                  || (t.taskType == "dialogue" && Can(r, "audio") && Can(r, "expression"))
                  || ((t.taskType == "transport" || t.taskType == "charge") && Can(r, "charging"))
                  || (t.taskType == "formation" && Can(r, "swarm")))
  {
    if RequiredCapabilities(t.taskType).Some? {
      var needed := RequiredCapabilities(t.taskType).value;
      assert needed[0] == "movement";
      assert forall i :: 0 <= i < |needed| ==> needed[i] in needed;
      if t.taskType == "dialogue" {
        assert needed[1] == "audio" && needed[2] == "expression";
      } else if t.taskType == "transport" || t.taskType == "charge" {
        assert needed[1] == "charging";
      } else if t.taskType == "formation" {
        assert needed[1] == "swarm";
      }
    }
  }

  // ---------- Who is chosen ----------

  lemma Outscored(sqrt: real -> real, t: Task, robots: seq<Robot>, r: Robot, better: Robot)
    requires better in robots && Eligible(better, t) && Score(sqrt, better, t) < Score(sqrt, r, t)
    ensures SelectBestRobot(sqrt, t, robots).Some? && SelectBestRobot(sqrt, t, robots).value != r
  {
    hide Eligible, Score, SelectBestRobot;
    SelectsFirstMinimum(sqrt, t, robots);
    var i: nat :| FirstMinimum(sqrt, t, robots, i);
  }

  /** Of two robots alike but for their batteries, the lower one is not chosen. */
  lemma LowerBatteryLoses(sqrt: real -> real, t: Task, robots: seq<Robot>, r: Robot, b: i16, c: i16)
    requires b < c && r.(battery := Some(c)) in robots && Eligible(r.(battery := Some(c)), t)
    ensures SelectBestRobot(sqrt, t, robots).Some?
    ensures SelectBestRobot(sqrt, t, robots) != Some(r.(battery := Some(b)))
  {
    BatteryWeighs(sqrt, r, t, b, c);
    Outscored(sqrt, t, robots, r.(battery := Some(b)), r.(battery := Some(c)));
  }

  /** Of two robots alike but for their loads, the one with more to do is not chosen, unless both are at the cap. */
  lemma BusierLoses(sqrt: real -> real, t: Task, robots: seq<Robot>, r: Robot, m: nat, n: nat)
    requires m < n && m < 10 && r.(activeTasks := m) in robots && Eligible(r.(activeTasks := m), t)
    ensures SelectBestRobot(sqrt, t, robots).Some?
    ensures SelectBestRobot(sqrt, t, robots) != Some(r.(activeTasks := n))
  {
    LoadWeighs(sqrt, r, t, m, n);
    Outscored(sqrt, t, robots, r.(activeTasks := n), r.(activeTasks := m));
  }

  /** Of two robots alike but for their ids, the one that is not preferred is not chosen over the preferred one. */
  lemma PreferredWins(sqrt: real -> real, t: Task, robots: seq<Robot>, r: Robot, other: i16)
    requires t.preferred == Some(r.shortId) && other != r.shortId && r in robots && Eligible(r, t)
    ensures SelectBestRobot(sqrt, t, robots).Some?
    ensures SelectBestRobot(sqrt, t, robots) != Some(r.(shortId := other))
  {
    Outscored(sqrt, t, robots, r.(shortId := other), r);
  }

  /** Of two robots alike but for their places, the farther one is not chosen, if the square root deserves its name. */
  lemma FartherLoses(sqrt: real -> real, t: Task, robots: seq<Robot>, near: Robot, far: Robot,
                     tx: i32, ty: i32, nx: i32, ny: i32, fx: i32, fy: i32)
    requires forall a, b :: 0.0 <= a < b ==> sqrt(a) < sqrt(b)
    requires t.x == Some(tx) && t.y == Some(ty)
    requires near.x == Some(nx) && near.y == Some(ny) && far == near.(x := Some(fx), y := Some(fy))
    requires (tx - nx) * (tx - nx) + (ty - ny) * (ty - ny) < (tx - fx) * (tx - fx) + (ty - fy) * (ty - fy)
    requires near in robots && Eligible(near, t)
    ensures SelectBestRobot(sqrt, t, robots).Some? && SelectBestRobot(sqrt, t, robots).value != far
  {
    assert Square(tx - nx) + Square(ty - ny) < Square(tx - fx) + Square(ty - fy);
    hide DistanceScore, LoadScore, BatteryScore, AffinityScore, Square, SelectBestRobot, Eligible;
    Distances(sqrt, tx, ty, nx, ny);
    Distances(sqrt, tx, ty, fx, fy);
    var n, f := (Square(tx - nx) + Square(ty - ny)) as real, (Square(tx - fx) + Square(ty - fy)) as real;
    assert 0.0 <= n < f;
    Outscored(sqrt, t, robots, far, near);
  }
}
