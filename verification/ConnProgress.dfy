/** How the connection manager enters each of its states, and that it gets to direct mode. */
module ConnProgress {
  import opened Bytes
  import opened ConnManager

  /** The link is down at poll `p`, and has been for more than `grace` ticks since the time kept in `lostAt`, where zero
      means that the loss begins now. */
  predicate Expired(lostAt: u32, p: Poll, grace: nat) {
    lostAt != 0 && (p.time % 0x1_0000_0000 - lostAt) % 0x1_0000_0000 > grace
  }

  lemma {:induction false} NeverInError(polls: seq<Poll>, k: nat)
    requires k <= |polls|
    ensures At(polls, k).state != Error && (k > 0 ==> At(polls, k).state != Init)
  {
    if k > 0 {
      NeverInError(polls, k - 1);
      StepIntoNeither(At(polls, k - 1), polls[k - 1]);
    }
  }

  lemma StepIntoNeither(m: Manager, p: Poll)
    requires m.state != Error
    ensures Step(m, p).state != Error && Step(m, p).state != Init
  {
    hide Now, Elapsed, Since;
  }

  lemma ExpiredIs(lostAt: u32, p: Poll)
    ensures Elapsed(Since(lostAt, Now(p)), Now(p)) > WS_GRACE <==> Expired(lostAt, p, 5000)
    ensures Elapsed(Since(lostAt, Now(p)), Now(p)) > BLE_GRACE <==> Expired(lostAt, p, 10000)
    ensures Now(p) == p.time % 0x1_0000_0000
  {
  }

  lemma AtNext(polls: seq<Poll>, k: nat)
    requires k < |polls|
    ensures At(polls, k + 1) == Step(At(polls, k), polls[k])
  {
  }

  /** Every change of state in every run. Each line says exactly when a poll enters a state from another one. */
  lemma EnteredExactly(polls: seq<Poll>, k: nat)
    requires k < |polls|
    ensures var (m, p, n) := (At(polls, k), polls[k], At(polls, k + 1).state);
            var recovers := p.wifi && exists j :: 0 <= j < k && At(polls, j).state == WsConnected;
            && n != Error && n != Init
            && (n == WifiConnecting != m.state <==>
                  !p.wifi && (m.state == Init || (m.state == WsConnecting && !p.ws)))
            && (n == WifiConnected != m.state <==>
                  || (p.wifi && (m.state == Init || m.state == WifiConnecting))
                  || (recovers && m.state in {BleAdvertising, BleConnected, Offline}))
            && (n == WsConnecting != m.state <==> m.state == WifiConnected)
            && (n == WsConnected != m.state <==> m.state == WsConnecting && p.ws)
            && (n == BleAdvertising != m.state <==>
                  || (m.state == WifiConnecting && !p.wifi && p.time % 0x1_0000_0000 > 10000)
                  || (m.state == WsConnected && !p.ws && Expired(m.wifiLostAt, p, 5000)))
            && (n == BleConnected != m.state <==>
                  m.state in {BleAdvertising, Offline} && p.ble && !recovers)
            && (n == Offline != m.state <==>
                  m.state == BleConnected && !p.ble && !recovers && Expired(m.bleLostAt, p, 10000))
  {
    NeverInError(polls, k);
    NeverInError(polls, k + 1);
    WasConnectedExactly(polls, k);
    AtNext(polls, k);
    var m, p := At(polls, k), polls[k];
    ExpiredIs(m.wifiLostAt, p);
    ExpiredIs(m.bleLostAt, p);
    hide At, Now, Elapsed, Since, Expired;
  }

  /** With WiFi and WebSocket both up for three polls or more, the robot is in direct mode, unless it fell back to BLE
      before it ever was in direct mode; and that holds from any poll of any run. */
  lemma DirectModeExactly(polls: seq<Poll>, k: nat, n: nat)
    requires k + 3 <= n <= |polls| && forall j :: k <= j < n ==> polls[j].wifi && polls[j].ws
    ensures At(polls, n).state == WsConnected <==>
              !(At(polls, k).state in {BleAdvertising, BleConnected, Offline}
                && forall j :: 0 <= j < k ==> At(polls, j).state != WsConnected)
  {
    hide At;
    NeverInError(polls, k);
    WasConnectedExactly(polls, k);
    if At(polls, k).state in {BleAdvertising, BleConnected, Offline} && !At(polls, k).wifiWasConnected {
      NoWayBack(polls, k, n);
    } else {
      Approached(polls, k, n);
    }
  }

  lemma {:induction false} Approached(polls: seq<Poll>, k: nat, n: nat)
    requires k <= n <= |polls| && forall j :: k <= j < n ==> polls[j].wifi && polls[j].ws
    requires At(polls, k).state != Error
    requires At(polls, k).state in {BleAdvertising, BleConnected, Offline} ==> At(polls, k).wifiWasConnected
    ensures Away(At(polls, n).state) <= (if n - k < 3 then 3 - (n - k) else 0)
    ensures n > k ==> At(polls, n).state in {WifiConnected, WsConnecting, WsConnected}
    decreases n
  {
    hide At;
    if n > k {
      Approached(polls, k, n - 1);
      Approach(polls, n - 1);
    }
  }

  /** How many polls with both bits set direct mode is away. */
  function Away(s: State): nat {
    match s
    case WsConnected => 0
    case WsConnecting => 1
    case WifiConnected => 2
    case _ => 3
  }

  /** One poll nearer. */
  lemma Approach(polls: seq<Poll>, k: nat)
    requires k < |polls| && polls[k].wifi && polls[k].ws && At(polls, k).state != Error
    requires At(polls, k).state in {BleAdvertising, BleConnected, Offline} ==> At(polls, k).wifiWasConnected
    ensures var (s, t) := (At(polls, k).state, At(polls, k + 1).state);
            Away(t) == (if s == WsConnected then 0 else Away(s) - 1) && t in {WifiConnected, WsConnecting, WsConnected}
  {
    AtNext(polls, k);
    hide At, Now, Elapsed, Since;
  }

  /** Direct mode three polls after boot, for as long as the link lasts. */
  lemma DirectModeFromBoot(polls: seq<Poll>)
    requires |polls| >= 3 && forall j :: 0 <= j < |polls| ==> polls[j].wifi && polls[j].ws
    ensures At(polls, |polls|).state == WsConnected
  {
    DirectModeExactly(polls, 0, |polls|);
  }

  lemma BridgeStep(m: Manager, p: Poll)
    requires m.state in {BleAdvertising, BleConnected, Offline} && p.ble && !(p.wifi && m.wifiWasConnected)
    ensures Step(m, p).state == BleConnected
  {
  }

  /** The bridge is up whenever BLE is and WiFi does not come back: one poll is enough, and it stays up. */
  lemma {:induction false} BridgeReached(polls: seq<Poll>, k: nat, n: nat)
    requires k < n <= |polls| && At(polls, k).state in {BleAdvertising, BleConnected, Offline}
    requires NoRecovery(polls, k, n) && forall j :: k <= j < n ==> polls[j].ble
    ensures At(polls, n).state == BleConnected
    decreases n
  {
    hide At;
    if n > k + 1 {
      BridgeReached(polls, k, n - 1);
    }
    AtNext(polls, n - 1);
    BridgeStep(At(polls, n - 1), polls[n - 1]);
  }
}
