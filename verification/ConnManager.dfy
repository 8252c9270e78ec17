/** The firmware connection manager: a polled state machine with two loss timers kept in 32-bit ticks. */
module ConnManager {
  import opened Bytes

  datatype State =
    | Init | WifiConnecting | WifiConnected | WsConnecting | WsConnected
    | BleAdvertising | BleConnected | Offline | Error

  /** 1000 ticks a second. */
  const WIFI_CONNECT_TIMEOUT := 10000
  const WS_GRACE := 5000
  const BLE_GRACE := 10000
  const WRAP := 0x1_0000_0000

  /** One turn of the loop: the time in ticks since boot and the three event bits. */
  datatype Poll = Poll(time: nat, wifi: bool, ws: bool, ble: bool)

  function Now(p: Poll): u32 {
    p.time % WRAP
  }

  /** The fields of the manager; a loss time of zero means that no loss is being timed. */
  datatype Manager = Manager(state: State, wifiLostAt: u32, bleLostAt: u32, wifiWasConnected: bool)

  const BOOTED := Manager(Init, 0, 0, false)

  /** The start of the loss being timed at `now`. */
  function Since(lostAt: u32, now: u32): u32 {
    if lostAt == 0 then now else lostAt
  }

  /** `now - lost_at` on unsigned 32-bit integers. */
  function Elapsed(lostAt: u32, now: u32): u32 {
    (now - lostAt) % WRAP
  }

  function Step(m: Manager, p: Poll): Manager {
    match m.state
    case Init => m.(state := if p.wifi then WifiConnected else WifiConnecting)
    case WifiConnecting =>
      if p.wifi then m.(state := WifiConnected)
      else if Now(p) > WIFI_CONNECT_TIMEOUT then m.(state := BleAdvertising)
      else m
    case WifiConnected => m.(state := WsConnecting)
    case WsConnecting =>
      if p.ws then m.(state := WsConnected) else if !p.wifi then m.(state := WifiConnecting) else m
    case WsConnected =>
      var seen := m.(wifiWasConnected := true);
      if p.ws then seen.(wifiLostAt := 0)
      else if Elapsed(Since(m.wifiLostAt, Now(p)), Now(p)) > WS_GRACE
      then seen.(state := BleAdvertising, wifiLostAt := 0)
      else seen.(wifiLostAt := Since(m.wifiLostAt, Now(p)))
    case BleAdvertising =>
      if p.wifi && m.wifiWasConnected then m.(state := WifiConnected)
      else if p.ble then m.(state := BleConnected, bleLostAt := 0)
      else m
    case BleConnected =>
      if p.wifi && m.wifiWasConnected then m.(state := WifiConnected)
      else if p.ble then m.(bleLostAt := 0)
      else if Elapsed(Since(m.bleLostAt, Now(p)), Now(p)) > BLE_GRACE then m.(state := Offline, bleLostAt := 0)
      else m.(bleLostAt := Since(m.bleLostAt, Now(p)))
    case Offline =>
      if p.wifi && m.wifiWasConnected then m.(state := WifiConnected)
      else if p.ble then m.(state := BleConnected)
      else m
    case Error => m
  }

  /** The manager before poll `k` of a run from boot. */
  function At(polls: seq<Poll>, k: nat): Manager
    requires k <= |polls|
  {
    if k == 0 then BOOTED else Step(At(polls, k - 1), polls[k - 1])
  }

  ghost predicate Chronological(polls: seq<Poll>) {
    forall i, j :: 0 <= i < j < |polls| ==> polls[i].time <= polls[j].time
  }

  // ---------- The object ----------

  class ConnManager {
    var state: State
    var wifiLostAt: u32
    var bleLostAt: u32
    var wifiWasConnected: bool

    function Fields(): Manager
      reads this
    {
      Manager(state, wifiLostAt, bleLostAt, wifiWasConnected)
    }

    constructor ()
      ensures Fields() == BOOTED
    {
      state, wifiLostAt, bleLostAt, wifiWasConnected := Init, 0, 0, false;
    }

    /** One turn of the endless loop. */
    method Turn(p: Poll)
      modifies this
      ensures Fields() == Step(old(Fields()), p)
    {
      var now: u32 := p.time % 0x1_0000_0000;
      match state
      case Init =>
        if p.wifi {
          state := WifiConnected;
        } else {
          state := WifiConnecting;
        }
      case WifiConnecting =>
        if p.wifi {
          state := WifiConnected;
        } else if now > WIFI_CONNECT_TIMEOUT {
          state := BleAdvertising;
        }
      case WifiConnected =>
        state := WsConnecting;
      case WsConnecting =>
        if p.ws {
          state := WsConnected;
        } else if !p.wifi {
          state := WifiConnecting;
        }
      case WsConnected =>
        wifiWasConnected := true;
        if !p.ws {
          if wifiLostAt == 0 {
            wifiLostAt := now;
          }
          if (now - wifiLostAt) % 0x1_0000_0000 > WS_GRACE {
            state := BleAdvertising;
            wifiLostAt := 0;
          }
        } else {
          wifiLostAt := 0;
        }
      case BleAdvertising =>
        if p.wifi && wifiWasConnected {
          state := WifiConnected;
        } else if p.ble {
          state := BleConnected;
          bleLostAt := 0;
        }
      case BleConnected =>
        if p.wifi && wifiWasConnected {
          state := WifiConnected;
        } else if !p.ble {
          if bleLostAt == 0 {
            bleLostAt := now;
          }
          if (now - bleLostAt) % 0x1_0000_0000 > BLE_GRACE {
            state := Offline;
            bleLostAt := 0;
          }
        } else {
          bleLostAt := 0;
        }
      case Offline =>
        if p.wifi && wifiWasConnected {
          state := WifiConnected;
        } else if p.ble {
          state := BleConnected;
        }
      case Error =>
    }

    /** The loop since boot, one turn a poll. */
    method TurnAll(polls: seq<Poll>)
      requires Fields() == BOOTED
      modifies this
      ensures Fields() == At(polls, |polls|)
    {
      for k := 0 to |polls|
        invariant Fields() == At(polls, k)
      {
        Turn(polls[k]);
      }
    }
  }

  // ---------- The loss timers ----------

  /** Elapsed ticks never exceed the real time between two polls, whatever wrapped in between. */
  lemma ElapsedIsSafe(p: Poll, q: Poll)
    requires p.time <= q.time
    ensures Elapsed(Now(p), Now(q)) <= q.time - p.time
    ensures q.time - p.time < WRAP ==> Elapsed(Now(p), Now(q)) == q.time - p.time
  {
  }

  /** What one poll does to the WiFi timer. */
  lemma WsStep(m: Manager, p: Poll)
    requires m.state != WsConnected ==> m.wifiLostAt == 0
    ensures var n := Step(m, p);
            && (n.state != WsConnected ==> n.wifiLostAt == 0)
            && (n.wifiLostAt != 0 ==>
                  && m.state == WsConnected && n.state == WsConnected && !p.ws
                  && n.wifiLostAt == Since(m.wifiLostAt, Now(p)))
            && (m.state == WsConnected && !p.ws ==>
                  if Elapsed(Since(m.wifiLostAt, Now(p)), Now(p)) > WS_GRACE then n.state == BleAdvertising
                  else n.state == WsConnected && n.wifiLostAt == Since(m.wifiLostAt, Now(p)))
            && (m.state == WsConnected && n.state != WsConnected ==> !p.ws)
  {
    hide Now, Elapsed, Since;
  }

  /** What one poll does to the BLE timer. */
  lemma BleStep(m: Manager, p: Poll)
    requires m.state == Offline ==> m.bleLostAt == 0
    ensures var n := Step(m, p);
            && (n.state == Offline ==> n.bleLostAt == 0)
            && (n.state == BleConnected && n.bleLostAt != 0 ==>
                  m.state == BleConnected && !p.ble && n.bleLostAt == Since(m.bleLostAt, Now(p)))
            && (m.state != Offline && n.state == Offline ==>
                  m.state == BleConnected && !p.ble && Elapsed(Since(m.bleLostAt, Now(p)), Now(p)) > BLE_GRACE)
            && (m.state == BleConnected && !p.ble && !(p.wifi && m.wifiWasConnected) ==>
                  if Elapsed(Since(m.bleLostAt, Now(p)), Now(p)) > BLE_GRACE then n.state == Offline
                  else n.state == BleConnected && n.bleLostAt == Since(m.bleLostAt, Now(p)))
  {
    hide Now, Elapsed, Since;
  }

  /** A timer that does not run reads zero; outside their states neither timer runs, except that a return to
      WiFi may leave the BLE timer set, which the next BLE connection clears. */
  lemma {:induction false} TimersAtRest(polls: seq<Poll>, k: nat)
    requires k <= |polls|
    ensures At(polls, k).state != WsConnected ==> At(polls, k).wifiLostAt == 0
    ensures At(polls, k).state == Offline ==> At(polls, k).bleLostAt == 0
  {
    if k > 0 {
      TimersAtRest(polls, k - 1);
      WsStep(At(polls, k - 1), polls[k - 1]);
      BleStep(At(polls, k - 1), polls[k - 1]);
      hide Step;
    }
  }

  lemma WsPoll(polls: seq<Poll>, k: nat)
    requires k < |polls|
    ensures var m, n, p := At(polls, k), At(polls, k + 1), polls[k];
            && (m.state != WsConnected ==> m.wifiLostAt == 0)
            && (n.wifiLostAt != 0 ==>
                  && m.state == WsConnected && n.state == WsConnected && !p.ws
                  && n.wifiLostAt == Since(m.wifiLostAt, Now(p)))
            && (m.state == WsConnected && !p.ws ==>
                  if Elapsed(Since(m.wifiLostAt, Now(p)), Now(p)) > WS_GRACE then n.state == BleAdvertising
                  else n.state == WsConnected && n.wifiLostAt == Since(m.wifiLostAt, Now(p)))
            && (m.state == WsConnected && n.state != WsConnected ==> !p.ws)
  {
    hide Step, Elapsed, Now, Since;
    TimersAtRest(polls, k);
    WsStep(At(polls, k), polls[k]);
  }

  lemma BlePoll(polls: seq<Poll>, k: nat)
    requires k < |polls|
    ensures var m, n, p := At(polls, k), At(polls, k + 1), polls[k];
            && (n.state == BleConnected && n.bleLostAt != 0 ==>
                  m.state == BleConnected && !p.ble && n.bleLostAt == Since(m.bleLostAt, Now(p)))
            && (m.state != Offline && n.state == Offline ==>
                  m.state == BleConnected && !p.ble && Elapsed(Since(m.bleLostAt, Now(p)), Now(p)) > BLE_GRACE)
            && (m.state == BleConnected && !p.ble && !(p.wifi && m.wifiWasConnected) ==>
                  if Elapsed(Since(m.bleLostAt, Now(p)), Now(p)) > BLE_GRACE then n.state == Offline
                  else n.state == BleConnected && n.bleLostAt == Since(m.bleLostAt, Now(p)))
  {
    hide Step, Elapsed, Now, Since;
    TimersAtRest(polls, k);
    BleStep(At(polls, k), polls[k]);
  }

  /** The WebSocket bit has been clear at polls `s` to `k - 1`, all in the connected state. */
  ghost predicate WsDown(polls: seq<Poll>, s: nat, k: nat) {
    s <= k <= |polls| && forall j :: s <= j < k ==> At(polls, j).state == WsConnected && !polls[j].ws
  }

  ghost predicate BleDown(polls: seq<Poll>, s: nat, k: nat) {
    s <= k <= |polls| && forall j :: s <= j < k ==> At(polls, j).state == BleConnected && !polls[j].ble
  }

  lemma SinceFirst(lostAt: u32, now: u32)
    ensures lostAt == 0 ==> Since(lostAt, now) == now
    ensures lostAt != 0 ==> Since(lostAt, now) == lostAt
  {
  }

  /** A running timer holds the time of a poll since which the link has been down. */
  lemma {:induction false} WsTimerTracks(polls: seq<Poll>, k: nat) returns (s: nat)
    requires k <= |polls| && At(polls, k).wifiLostAt != 0
    ensures s < k && WsDown(polls, s, k)
    ensures At(polls, k).wifiLostAt == Now(polls[s])
  {
    hide Step, Now, Elapsed, Since;
    assert k > 0;
    hide At;
    WsPoll(polls, k - 1);
    SinceFirst(At(polls, k - 1).wifiLostAt, Now(polls[k - 1]));
    if At(polls, k - 1).wifiLostAt != 0 {
      s := WsTimerTracks(polls, k - 1);
    } else {
      s := k - 1;
    }
  }

  lemma {:induction false} BleTimerTracks(polls: seq<Poll>, k: nat) returns (s: nat)
    requires k <= |polls| && At(polls, k).bleLostAt != 0 && At(polls, k).state == BleConnected
    ensures s < k && BleDown(polls, s, k)
    ensures At(polls, k).bleLostAt == Now(polls[s])
  {
    hide Step, Now, Elapsed, Since;
    assert k > 0;
    hide At;
    BlePoll(polls, k - 1);
    SinceFirst(At(polls, k - 1).bleLostAt, Now(polls[k - 1]));
    if At(polls, k - 1).bleLostAt != 0 {
      s := BleTimerTracks(polls, k - 1);
    } else {
      s := k - 1;
    }
  }

  /** Direct mode is left only for BLE, and only after the WebSocket was down at every poll over more than
      5000 ticks. */
  lemma WsLeftOnlyAfterGrace(polls: seq<Poll>, k: nat) returns (s: nat)
    requires Chronological(polls) && k < |polls|
    requires At(polls, k).state == WsConnected && At(polls, k + 1).state != WsConnected
    ensures At(polls, k + 1).state == BleAdvertising
    ensures s <= k && WsDown(polls, s, k + 1) && polls[k].time - polls[s].time > 5000
  {
    hide At, Now, Elapsed;
    WsPoll(polls, k);
    s := k;
    if At(polls, k).wifiLostAt != 0 {
      s := WsTimerTracks(polls, k);
    }
    ElapsedIsSafe(polls[s], polls[k]);
  }

  /** The robot goes offline only from BLE, and only after BLE was down at every poll over more than
      10000 ticks. */
  lemma OfflineOnlyAfterGrace(polls: seq<Poll>, k: nat) returns (s: nat)
    requires Chronological(polls) && k < |polls|
    requires At(polls, k).state != Offline && At(polls, k + 1).state == Offline
    ensures At(polls, k).state == BleConnected
    ensures s <= k && BleDown(polls, s, k + 1) && polls[k].time - polls[s].time > 10000
  {
    hide At, Now, Elapsed;
    BlePoll(polls, k);
    s := k;
    if At(polls, k).bleLostAt != 0 {
      s := BleTimerTracks(polls, k);
    }
    ElapsedIsSafe(polls[s], polls[k]);
  }

  // ---------- When the timers do fire ----------

  /** Polls come at least every 2^31 ticks (they are meant to come every second). */
  ghost predicate Frequent(polls: seq<Poll>) {
    Chronological(polls) && forall i :: 0 < i < |polls| ==> polls[i].time < polls[i - 1].time + 0x8000_0000
  }

  /** Poll `s` starts the timer of the loss that began at poll `first`: it is the first one whose tick count is
      not the sentinel zero. */
  ghost predicate Starts(polls: seq<Poll>, first: nat, s: nat) {
    && first <= s < |polls| && polls[s].time % 0x1_0000_0000 != 0
    && forall j :: first <= j < s ==> polls[j].time % 0x1_0000_0000 == 0
  }

  lemma StartTick(polls: seq<Poll>, first: nat, s: nat)
    requires Starts(polls, first, s)
    ensures Now(polls[s]) != 0 && forall j :: first <= j < s ==> Now(polls[j]) == 0
  {
  }

  lemma {:induction false} ZeroUntil(polls: seq<Poll>, first: nat, k: nat)
    requires first <= k < |polls| && WsDown(polls, first, k) && At(polls, k).state == WsConnected
    requires At(polls, first).wifiLostAt == 0 && forall j :: first <= j < k ==> Now(polls[j]) == 0
    ensures At(polls, k).wifiLostAt == 0
  {
    hide At, Now, Elapsed;
    if k > first {
      WsPoll(polls, k - 1);
      ZeroUntil(polls, first, k - 1);
    }
  }

  /** While direct mode goes on with the link down, the timer stands at the loss and has not run out. */
  lemma {:induction false} WsTimerRuns(polls: seq<Poll>, first: nat, s: nat, k: nat)
    requires Frequent(polls) && Starts(polls, first, s) && s < k < |polls|
    requires WsDown(polls, first, k) && At(polls, k).state == WsConnected && At(polls, first).wifiLostAt == 0
    ensures At(polls, k).wifiLostAt == Now(polls[s])
    ensures polls[k - 1].time - polls[s].time <= 5000
    decreases k
  {
    hide At, Now, Elapsed;
    StartTick(polls, first, s);
    WsPoll(polls, k - 1);
    if k - 1 == s {
      ZeroUntil(polls, first, s);
    } else {
      WsTimerRuns(polls, first, s, k - 1);
      ElapsedIsSafe(polls[s], polls[k - 1]);
    }
  }

  /** The grace period is exact: with the link down since poll `first` and the timer started by poll `s`, poll `k`
      leaves direct mode if and only if more than 5000 ticks have passed since poll `s`. */
  lemma WsGraceExactly(polls: seq<Poll>, first: nat, s: nat, k: nat)
    requires Frequent(polls) && Starts(polls, first, s) && s < k < |polls|
    requires WsDown(polls, first, k + 1) && At(polls, first).wifiLostAt == 0
    ensures At(polls, k + 1).state == BleAdvertising <==> polls[k].time - polls[s].time > 5000
    ensures At(polls, k + 1).state == WsConnected <==> polls[k].time - polls[s].time <= 5000
  {
    hide At, Now, Elapsed;
    StartTick(polls, first, s);
    WsPoll(polls, k);
    WsTimerRuns(polls, first, s, k);
    ElapsedIsSafe(polls[s], polls[k]);
  }

  /** No poll from `s` to `k - 1` recovers WiFi. */
  ghost predicate NoRecovery(polls: seq<Poll>, s: nat, k: nat) {
    s <= k <= |polls| && forall j :: s <= j < k ==> !(polls[j].wifi && At(polls, j).wifiWasConnected)
  }

  lemma {:induction false} BleZeroUntil(polls: seq<Poll>, first: nat, k: nat)
    requires first <= k < |polls| && BleDown(polls, first, k + 1) && NoRecovery(polls, first, k)
    requires At(polls, first).bleLostAt == 0 && forall j :: first <= j < k ==> Now(polls[j]) == 0
    ensures At(polls, k).bleLostAt == 0
  {
    hide At, Now, Elapsed;
    if k > first {
      BlePoll(polls, k - 1);
      assert At(polls, k).state == BleConnected;
      BleZeroUntil(polls, first, k - 1);
    }
  }

  lemma {:induction false} BleTimerRuns(polls: seq<Poll>, first: nat, s: nat, k: nat)
    requires Frequent(polls) && Starts(polls, first, s) && s < k < |polls|
    requires BleDown(polls, first, k + 1) && NoRecovery(polls, first, k) && At(polls, first).bleLostAt == 0
    ensures At(polls, k).bleLostAt == Now(polls[s])
    ensures polls[k - 1].time - polls[s].time <= 10000
    decreases k
  {
    hide At, Now, Elapsed;
    StartTick(polls, first, s);
    BlePoll(polls, k - 1);
    assert At(polls, k).state == BleConnected;
    if k - 1 == s {
      BleZeroUntil(polls, first, s);
    } else {
      BleTimerRuns(polls, first, s, k - 1);
      ElapsedIsSafe(polls[s], polls[k - 1]);
    }
  }

  /** The same for BLE: with the link down since poll `first`, the timer started by poll `s` and no recovery of WiFi,
      poll `k` goes offline if and only if more than 10000 ticks have passed since poll `s`. */
  lemma BleGraceExactly(polls: seq<Poll>, first: nat, s: nat, k: nat)
    requires Frequent(polls) && Starts(polls, first, s) && s < k < |polls|
    requires BleDown(polls, first, k + 1) && NoRecovery(polls, first, k + 1) && At(polls, first).bleLostAt == 0
    ensures At(polls, k + 1).state == Offline <==> polls[k].time - polls[s].time > 10000
    ensures At(polls, k + 1).state == BleConnected <==> polls[k].time - polls[s].time <= 10000
  {
    hide At, Now, Elapsed;
    StartTick(polls, first, s);
    BlePoll(polls, k);
    BleTimerRuns(polls, first, s, k);
    ElapsedIsSafe(polls[s], polls[k]);
  }

  // ---------- The way back to WiFi ----------

  lemma FlagStep(m: Manager, p: Poll)
    ensures Step(m, p).wifiWasConnected <==> m.wifiWasConnected || m.state == WsConnected
  {
    hide Now, Elapsed, Since;
  }

  /** The flag says whether direct mode was ever polled. */
  lemma {:induction false} WasConnectedExactly(polls: seq<Poll>, k: nat)
    requires k <= |polls|
    ensures At(polls, k).wifiWasConnected <==> exists j :: 0 <= j < k && At(polls, j).state == WsConnected
  {
    hide Step;
    if k > 0 {
      FlagStep(At(polls, k - 1), polls[k - 1]);
      WasConnectedExactly(polls, k - 1);
    }
  }

  predicate Bridged(s: State) {
    s == BleAdvertising || s == BleConnected || s == Offline
  }

  /** From BLE or offline, a poll goes back to WiFi exactly when WiFi is up and direct mode was polled before. */
  lemma RecoveryExactly(polls: seq<Poll>, k: nat)
    requires k < |polls| && Bridged(At(polls, k).state)
    ensures At(polls, k + 1).state == WifiConnected <==>
              polls[k].wifi && exists j :: 0 <= j < k && At(polls, j).state == WsConnected
    ensures At(polls, k + 1).state != WifiConnected ==> Bridged(At(polls, k + 1).state)
  {
    WasConnectedExactly(polls, k);
  }

  /** A robot that falls back to BLE before it was ever in direct mode stays there for good. */
  lemma {:induction false} NoWayBack(polls: seq<Poll>, k: nat, n: nat)
    requires k <= n <= |polls| && Bridged(At(polls, k).state)
    requires forall j :: 0 <= j < k ==> At(polls, j).state != WsConnected
    ensures Bridged(At(polls, n).state) && !At(polls, n).wifiWasConnected
    decreases n
  {
    if n == k {
      WasConnectedExactly(polls, k);
    } else {
      NoWayBack(polls, k, n - 1);
    }
  }

  /** A run into that trap, polled once a second: WiFi comes up twelve seconds after boot and stays up. */
  function LateWifi(n: nat): seq<Poll> {
    seq(n, i requires 0 <= i < n => Poll(1000 * i, i >= 12, false, false))
  }

  lemma {:induction false} LateWifiWaits(n: nat, k: nat)
    requires 1 <= k <= 11 && k <= n
    ensures At(LateWifi(n), k) == BOOTED.(state := WifiConnecting)
  {
    var polls := LateWifi(n);
    assert At(polls, k) == Step(At(polls, k - 1), polls[k - 1]);
    if k == 1 {
      assert At(polls, 0) == BOOTED;
    } else {
      LateWifiWaits(n, k - 1);
      assert Now(polls[k - 1]) == 1000 * (k - 1);
    }
  }

  lemma LateWifiGivesUp(n: nat)
    requires n >= 12
    ensures At(LateWifi(n), 12) == BOOTED.(state := BleAdvertising)
  {
    var polls := LateWifi(n);
    LateWifiWaits(n, 11);
    assert At(polls, 12) == Step(At(polls, 11), polls[11]);
    assert Now(polls[11]) == 11000;
  }

  lemma LateWifiNotDirect(n: nat)
    requires n >= 12
    ensures forall j :: 0 <= j < 12 ==> At(LateWifi(n), j).state != WsConnected
  {
    hide Step;
    forall j | 0 <= j < 12 ensures At(LateWifi(n), j).state != WsConnected {
      if j > 0 {
        LateWifiWaits(n, j);
      }
    }
  }

  /** WiFi stays up for as many polls as one likes, and the robot stays in BLE mode: recovery fails. */
  lemma RecoveryFails(n: nat)
    requires n >= 12
    ensures var polls := LateWifi(n);
            && |polls| == n && Chronological(polls)
            && (forall k :: 0 <= k < n ==> polls[k].time == 1000 * k && (polls[k].wifi <==> k >= 12))
            && Bridged(At(polls, n).state)
  {
    hide Step, At;
    LateWifiGivesUp(n);
    LateWifiNotDirect(n);
    NoWayBack(LateWifi(n), 12, n);
  }
}
