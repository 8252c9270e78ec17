/** The bound on registrations behind a stale handler is tight, for every limit on connections. */
module GatewayBound {
  import opened Bytes
  import opened Outcomes
  import opened ConnPool
  import opened Gateway

  // ---------- Counting registrations ----------

  predicate Registers(g: Gateway, e: Event)
    requires g.pool.nextId >= 1
  {
    PoolEventOf(g, e).Some? && HandOut(g.pool, PoolEventOf(g, e).value).Some?
  }

  /** A run has the registrations of its first event and those of the rest. */
  lemma RegistrationsStep(g: Gateway, e: Event, rest: seq<Event>)
    requires g.pool.nextId >= 1
    ensures Run(g, [e] + rest) == Run(Step(g, e), rest)
    ensures Registrations(g, [e] + rest) == (if Registers(g, e) then 1 else 0) + Registrations(Step(g, e), rest)
  {
    hide HandOut, StepPool, Step;
    assert ([e] + rest)[1..] == rest;
    StepsThePool(g, e);
    var tail := PoolEvents(Step(g, e), rest);
    if PoolEventOf(g, e).Some? {
      var pe := PoolEventOf(g, e).value;
      assert PoolEvents(g, [e] + rest) == [pe] + tail;
      assert ([pe] + tail)[1..] == tail;
    } else {
      assert PoolEvents(g, [e] + rest) == [] + tail == tail;
    }
  }

  lemma NoRegistrations(g: Gateway)
    requires g.pool.nextId >= 1
    ensures Registrations(g, []) == 0
  {
  }

  lemma LeaveIsQuiet(g: Gateway, e: Event)
    requires g.pool.nextId >= 1 && e.Cleanup?
    ensures !Registers(g, e)
  {
  }

  // ---------- A crowd of other machines ----------

  ghost predicate Distinct(ms: seq<MachineId>) {
    forall i, j :: 0 <= i < j < |ms| ==> ms[i] != ms[j]
  }

  /** There are enough machines for any number of connections. */
  lemma EnoughMachines(n: nat) returns (ms: seq<MachineId>)
    requires n <= 0x1_0000
    ensures |ms| == n && Distinct(ms)
  {
    ms := seq(n, i requires 0 <= i < n => Numbered(i));
    forall i, j | 0 <= i < j < n ensures ms[i] != ms[j] {
      assert ms[i][0] == i % 0x100 && ms[i][1] == i / 0x100;
      assert ms[j][0] == j % 0x100 && ms[j][1] == j / 0x100;
    }
  }

  function Numbered(i: nat): (m: MachineId)
    requires i < 0x1_0000
  {
    [i % 0x100, i / 0x100] + seq(14, _ => 0)
  }

  /** The pool after these machines have registered, one after another. */
  function CrowdPool(ms: seq<MachineId>, limit: nat): (p: Pool)
    requires |ms| <= IDS
    ensures p.nextId >= 1 && p.maxConnections == limit
  {
    if ms == [] then Empty(limit)
    else
      var n := |ms|;
      Inserted(CrowdPool(ms[..n - 1], limit), n, Advance(n, 1), ms[n - 1], 0, 0, n - 1)
  }

  lemma IdsToNext(n: nat)
    requires 0 < n <= IDS
    ensures IdsTo(n) == IdsTo(n - 1) + {n}
  {
  }

  lemma {:induction false} CrowdKeys(ms: seq<MachineId>, limit: nat)
    requires |ms| <= IDS
    ensures var p := CrowdPool(ms, limit);
            && p.nextId == Advance(1, |ms|)
            && p.byShortId.Keys == IdsTo(|ms|) && p.senders.Keys == IdsTo(|ms|)
            && forall m :: m in p.byMachineId <==> m in ms
  {
    if ms != [] {
      var n := |ms|;
      var front := ms[..n - 1];
      CrowdKeys(front, limit);
      assert ms == front + [ms[n - 1]];
      AdvanceAdd(1, n - 1, 1);
      assert Advance(1, n - 1) == n;
      IdsToNext(n);
      hide Advance, IdsTo;
    }
  }

  lemma CrowdFacts(ms: seq<MachineId>, limit: nat)
    requires |ms| <= IDS
    ensures var p := CrowdPool(ms, limit);
            && p.nextId == Advance(1, |ms|)
            && p.byShortId.Keys == IdsTo(|ms|) && |p.byShortId| == |ms| && p.senders.Keys == IdsTo(|ms|)
            && forall m :: m in p.byMachineId <==> m in ms
  {
    hide CrowdPool, IdsTo, Advance;
    CountIds(|ms|);
    CrowdKeys(ms, limit);
    var p := CrowdPool(ms, limit);
    assert |p.byShortId| == |p.byShortId.Keys|;
  }

  /** A registration that finds the id under the cursor free takes it. */
  lemma RegisterFirstFree(p: Pool, m: MachineId, sender: Sender)
    requires p.nextId >= 1 && |Kicked(p, m).byShortId| < p.maxConnections && p.nextId !in Kicked(p, m).byShortId
    ensures RegisterStep(p, m, 0, 0, sender) ==
              (Inserted(Kicked(p, m), p.nextId, Advance(p.nextId, 1), m, 0, 0, sender), Registered(p.nextId))
  {
    SweepAtOnce(Kicked(p, m).byShortId.Keys, p.nextId);
    hide Sweep, Advance;
  }

  lemma SweepAtOnce(used: set<u16>, from: u16)
    requires from >= 1 && from !in used
    ensures Sweep(used, from, 0, IDS) == Some(0) && Advance(from, 0) == from
  {
  }

  function IdOf(h: nat): u16
    requires h < IDS
  {
    h + 1
  }

  /** Handler `h` holds id `h + 1`. */
  function Held(n: nat): map<nat, u16>
    requires n <= IDS
  {
    map h: nat | 0 <= h < n :: IdOf(h)
  }

  lemma HeldGrows(n: nat)
    requires n < IDS
    ensures Held(n + 1) == Held(n)[n := n + 1]
  {
    assert IdOf(n) == n + 1;
  }

  function Crowd(ms: seq<MachineId>, limit: nat): (g: Gateway)
    requires |ms| <= IDS
    ensures g.pool.nextId >= 1
  {
    Gateway(CrowdPool(ms, limit), Held(|ms|), |ms|)
  }

  lemma CrowdGrows(ms: seq<MachineId>, m: MachineId, limit: nat)
    requires |ms| < IDS && |ms| < limit && m !in ms
    ensures Step(Crowd(ms, limit), Connect(m, 0, 0)) == Crowd(ms + [m], limit)
  {
    hide RegisterStep, Advance;
    var p := CrowdPool(ms, limit);
    CrowdFacts(ms, limit);
    CursorAt(|ms|);
    assert Kicked(p, m) == p;
    RegisterFirstFree(p, m, |ms|);
    assert (ms + [m])[..|ms|] == ms;
    HeldGrows(|ms|);
  }

  /** Before a whole turn, the cursor stands one behind the number of ids handed out. */
  lemma CursorAt(n: nat)
    requires n < IDS
    ensures Advance(1, n) == n + 1 && n + 1 !in IdsTo(n)
  {
  }

  function Arrivals(ms: seq<MachineId>): seq<Event> {
    if ms == [] then [] else [Connect(ms[0], 0, 0)] + Arrivals(ms[1..])
  }

  lemma {:induction false} CrowdArrives(here: seq<MachineId>, ms: seq<MachineId>, limit: nat)
    requires |here + ms| <= limit && |here + ms| <= IDS && Distinct(here + ms)
    ensures Run(Crowd(here, limit), Arrivals(ms)) == Crowd(here + ms, limit)
    decreases |ms|
  {
    hide Step, Crowd;
    if ms == [] {
      assert here + ms == here;
    } else {
      var all := here + ms;
      assert forall i :: 0 <= i < |here| ==> all[i] == here[i] && all[|here|] == ms[0];
      CrowdGrows(here, ms[0], limit);
      assert (here + [ms[0]]) + ms[1..] == all;
      CrowdArrives(here + [ms[0]], ms[1..], limit);
      RegistrationsStep(Crowd(here, limit), Connect(ms[0], 0, 0), Arrivals(ms[1..]));
    }
  }

  // ---------- One machine reconnecting ----------

  /** Behind the crowd, machine `m` has connected `k + 1` times, each time kicking out its previous connection. */
  function SpunPool(others: seq<MachineId>, limit: nat, m: MachineId, k: nat): (p: Pool)
    requires |others| + 1 + k <= IDS
    ensures p.nextId >= 1 && p.maxConnections == limit
  {
    var id := |others| + 1 + k;
    Inserted(CrowdPool(others, limit), id, Advance(id, 1), m, 0, 0, id - 1)
  }

  function Spun(others: seq<MachineId>, limit: nat, m: MachineId, k: nat): (g: Gateway)
    requires |others| + 1 + k <= IDS
    ensures g.pool.nextId >= 1
  {
    Gateway(SpunPool(others, limit, m, k), Held(|others| + 1 + k), |others| + 1 + k)
  }

  /** What kicking out `m` leaves. */
  lemma KickedSpun(others: seq<MachineId>, limit: nat, m: MachineId, k: nat)
    requires |others| + 1 + k <= IDS
    ensures var p, q := CrowdPool(others, limit), Kicked(SpunPool(others, limit, m, k), m);
            && q.byShortId == p.byShortId && q.senders == p.senders
            && q.byMachineId == p.byMachineId[m := |others| + 1 + k]
            && q.nextId == Advance(|others| + 1 + k, 1) && q.maxConnections == limit
            && q.byShortId.Keys == IdsTo(|others|) && |q.byShortId| == |others|
  {
    hide Advance;
    CrowdFacts(others, limit);
    var id := |others| + 1 + k;
    assert id !in IdsTo(|others|);
    var p, q := CrowdPool(others, limit), Kicked(SpunPool(others, limit, m, k), m);
    assert q.byShortId == p.byShortId;
    assert q.senders == p.senders;
  }

  lemma SpinRegisters(others: seq<MachineId>, limit: nat, m: MachineId, k: nat)
    requires |others| < limit && |others| + 2 + k <= IDS
    ensures RegisterStep(SpunPool(others, limit, m, k), m, 0, 0, |others| + 1 + k) ==
              (SpunPool(others, limit, m, k + 1), Registered(|others| + 2 + k))
  {
    hide RegisterStep, CrowdPool;
    var id := |others| + 1 + k;
    KickedSpun(others, limit, m, k);
    assert Advance(id, 1) == id + 1 && id + 1 !in IdsTo(|others|);
    hide Advance, IdsTo;
    RegisterFirstFree(SpunPool(others, limit, m, k), m, id);
    var before: map<MachineId, u16> := CrowdPool(others, limit).byMachineId;
    assert before[m := id][m := id + 1] == before[m := id + 1];
  }

  lemma SpinOnce(others: seq<MachineId>, limit: nat, m: MachineId, k: nat)
    requires |others| < limit && |others| + 2 + k <= IDS
    ensures Step(Spun(others, limit, m, k), Connect(m, 0, 0)) == Spun(others, limit, m, k + 1)
    ensures Registers(Spun(others, limit, m, k), Connect(m, 0, 0))
  {
    hide RegisterStep, SpunPool;
    SpinRegisters(others, limit, m, k);
    var n := |others| + 1 + k;
    HeldGrows(n);
  }

  function Spins(m: MachineId, n: nat): seq<Event> {
    if n == 0 then [] else [Connect(m, 0, 0)] + Spins(m, n - 1)
  }

  lemma {:induction false} SpinMany(others: seq<MachineId>, limit: nat, m: MachineId, k: nat, n: nat, rest: seq<Event>)
    requires |others| < limit && |others| + 1 + k + n <= IDS
    ensures var g, g' := Spun(others, limit, m, k), Spun(others, limit, m, k + n);
            && Run(g, Spins(m, n) + rest) == Run(g', rest)
            && Registrations(g, Spins(m, n) + rest) == n + Registrations(g', rest)
    decreases n
  {
    hide StepPool, HandOut, Spun, Step, Run, Registrations, Registers;
    if n == 0 {
      assert Spins(m, n) + rest == rest;
    } else {
      SpinMany(others, limit, m, k + 1, n - 1, rest);
      SpinOnce(others, limit, m, k);
      RegistrationsStep(Spun(others, limit, m, k), Connect(m, 0, 0), Spins(m, n - 1) + rest);
      assert Spins(m, n) + rest == [Connect(m, 0, 0)] + (Spins(m, n - 1) + rest);
    }
  }

  lemma SweepCrowd(n: nat)
    requires n < IDS
    ensures Sweep(IdsTo(n), 1, 0, IDS) == Some(n) && Advance(1, n) == n + 1
  {
    SweepFinds(IdsTo(n), 1, 0, IDS);
    var s := Sweep(IdsTo(n), 1, 0, IDS);
    hide Sweep;
    CursorAt(n);
  }

  /** With the cursor back at 1 and the crowd in place, the next id handed out is the first one behind the crowd. */
  lemma FirstBehindCrowd(p: Pool, m: MachineId, sender: Sender, n: nat)
    requires p.nextId == 1 && n < IDS && n < p.maxConnections
    requires Kicked(p, m).byShortId.Keys == IdsTo(n) && |Kicked(p, m).byShortId| == n
    ensures HandOut(p, Join(m, 0, 0, sender)) == Some(n + 1)
    ensures Owns(StepPool(p, Join(m, 0, 0, sender)), n + 1, sender, m)
  {
    SweepCrowd(n);
    hide Sweep, Advance, IdsTo;
  }

  /** The last connection of a run in which the cursor has just come round. */
  lemma LastJoin(g: Gateway, m: MachineId, n: nat)
    requires g.pool.nextId == 1 && n < IDS && n < g.pool.maxConnections
    requires Kicked(g.pool, m).byShortId.Keys == IdsTo(n) && |Kicked(g.pool, m).byShortId| == n
    requires g.handlers !in g.held
    ensures var g' := Run(g, [Connect(m, 0, 0)]);
            && Owns(g'.pool, n + 1, g.handlers, m)
            && (forall h :: h in g.held ==> h in g'.held && g'.held[h] == g.held[h])
    ensures Registrations(g, [Connect(m, 0, 0)]) == 1
  {
    hide Owns, Kicked, Registrations, IdsTo;
    FirstBehindCrowd(g.pool, m, g.handlers, n);
    hide StepPool, HandOut;
    assert [Connect(m, 0, 0)] == [Connect(m, 0, 0)] + [];
    RegistrationsStep(g, Connect(m, 0, 0), []);
    NoRegistrations(Step(g, Connect(m, 0, 0)));
  }

  // ---------- The witnesses ----------

  /** Behind `others`, machine `m` connects as handler `|others|` and reconnects until all ids have been handed out;
      the cursor is back at 1. */
  lemma TurnedRound(others: seq<MachineId>, limit: nat, m: MachineId, k: nat)
    requires |others| < limit && |others| + 1 + k == IDS
    ensures var g := Spun(others, limit, m, k);
            && g.pool.nextId == 1 && g.handlers == IDS && g.pool.maxConnections == limit
            && |others| in g.held && g.held[|others|] == |others| + 1 && g.handlers !in g.held
            && Kicked(g.pool, m).byShortId.Keys == IdsTo(|others|) && |Kicked(g.pool, m).byShortId| == |others|
  {
    KickedSpun(others, limit, m, k);
    assert IdOf(|others|) == |others| + 1;
    hide CrowdPool, IdsTo;
  }

  lemma EmptySound(limit: nat)
    ensures Sound(Gateway(Empty(limit), map[], 0)) && Gateway(Empty(limit), map[], 0) == Crowd([], limit)
  {
    assert Held(0) == map[];
  }

  lemma FirstSpun(others: seq<MachineId>, limit: nat, m: MachineId)
    requires |others| < IDS
    ensures Crowd(others + [m], limit) == Spun(others, limit, m, 0)
    ensures |others| in Spun(others, limit, m, 0).held && Spun(others, limit, m, 0).held[|others|] == |others| + 1
  {
    hide Inserted, Advance;
    assert (others + [m])[..|others|] == others;
    assert IdOf(|others|) == |others| + 1;
  }

  /** Where the reconnections start from, and that handlers can bring it about. */
  lemma FirstSpin(others: seq<MachineId>, limit: nat, m: MachineId)
    requires |others| < limit && |others| < IDS && Distinct(others) && m !in others
    ensures Sound(Gateway(Empty(limit), map[], 0))
    ensures Run(Gateway(Empty(limit), map[], 0), Arrivals(others)) == Crowd(others, limit)
    ensures Step(Crowd(others, limit), Connect(m, 0, 0)) == Spun(others, limit, m, 0)
    ensures |others| in Spun(others, limit, m, 0).held && Spun(others, limit, m, 0).held[|others|] == |others| + 1
  {
    hide Step, Run, Crowd, Spun, Sound, Arrivals;
    EmptySound(limit);
    assert [] + others == others;
    CrowdArrives([], others, limit);
    CrowdGrows(others, m, limit);
    FirstSpun(others, limit, m);
  }

  lemma LastCleanup(others: seq<MachineId>, limit: nat, m: MachineId, n: MachineId, k: nat)
    requires |others| < limit && |others| + 1 + k == IDS && k > 0 && m !in others && n !in others && m != n
    ensures var g := Step(Spun(others, limit, m, k), Cleanup(IDS - 1));
            && g.pool.nextId == 1 && g.handlers == IDS && g.pool.maxConnections == limit
            && |others| in g.held && g.held[|others|] == |others| + 1 && g.handlers !in g.held
            && Kicked(g.pool, n).byShortId.Keys == IdsTo(|others|) && |Kicked(g.pool, n).byShortId| == |others|
  {
    hide IdsTo, StepPool, HandOut;
    CrowdFacts(others, limit);
    TurnedRound(others, limit, m, k);
    var g := Spun(others, limit, m, k);
    assert g.held[IDS - 1] == IdOf(IDS - 1) == IDS;
    LeaveStep(g.pool, IDS);
    CrowdCleared(others, limit, m, k);
  }

  /** Once the last connection of `m` is gone, only the crowd is left. */
  lemma CrowdCleared(others: seq<MachineId>, limit: nat, m: MachineId, k: nat)
    requires |others| + 1 + k == IDS && m !in others
    ensures UnregisterStep(SpunPool(others, limit, m, k), IDS) == CrowdPool(others, limit).(nextId := 1)
  {
    CrowdFacts(others, limit);
    assert IDS !in IdsTo(|others|) && Advance(IDS, 1) == 1;
    hide CrowdPool, IdsTo, Advance;
    var p, q := CrowdPool(others, limit), UnregisterStep(SpunPool(others, limit, m, k), IDS);
    assert q.byShortId == p.byShortId;
    assert q.senders == p.senders;
    assert q.byMachineId == p.byMachineId;
  }

  /** With one registration more than `StaleHandlerHarmless` allows, a stale handler can remove another machine. Under
      any limit below 65535: with limit - 1 others connected, `m` connects, reconnects through the remaining ids and
      leaves; then `n` is given the id that the first handler of `m` still holds. */
  lemma BoundIsTight(others: seq<MachineId>, m: MachineId, n: MachineId, limit: nat, k: nat)
    requires limit == |others| + 1 && limit + k == IDS && k > 0
    requires Distinct(others) && m !in others && n !in others && m != n
    ensures Sound(Gateway(Empty(limit), map[], 0))
    ensures var g := Run(Gateway(Empty(limit), map[], 0), Arrivals(others));
            var g1 := Step(g, Connect(m, 0, 0));
            var es := Spins(m, k) + [Cleanup(IDS - 1), Connect(n, 0, 0)];
            var g2 := Run(g1, es);
            && Registrations(g1, es) + limit == IDS + 1
            && g.handlers in g1.held && g.handlers in g2.held && g2.held[g.handlers] == g1.held[g.handlers]
            && Owns(g2.pool, g1.held[g.handlers], IDS, n)
  {
    hide Step, Run, Owns, Spun, Spins, Registrations, Sound, Arrivals, Kicked, IdsTo;
    var last := [Cleanup(IDS - 1), Connect(n, 0, 0)];
    FirstSpin(others, limit, m);
    SpinMany(others, limit, m, 0, k, last);
    LastCleanup(others, limit, m, n, k);
    var g := Spun(others, limit, m, k);
    assert last == [Cleanup(IDS - 1)] + [Connect(n, 0, 0)];
    RegistrationsStep(g, Cleanup(IDS - 1), [Connect(n, 0, 0)]);
    LeaveIsQuiet(g, Cleanup(IDS - 1));
    LastJoin(Step(g, Cleanup(IDS - 1)), n, |others|);
  }

  lemma OneOwner(p: Pool, x: u16, h: nat, k: nat, m: MachineId)
    requires h != k && Owns(p, x, k, m)
    ensures !Owns(p, x, h, m)
  {
  }

  /** Under every limit up to 65535, that one included: if `m` just goes on reconnecting, its first handler's id comes
      round to its newest connection, which the stale handler would remove. */
  lemma BoundIsTightForOneself(others: seq<MachineId>, m: MachineId, limit: nat, k: nat)
    requires limit == |others| + 1 && limit + k == IDS
    requires Distinct(others) && m !in others
    ensures Sound(Gateway(Empty(limit), map[], 0))
    ensures var g := Run(Gateway(Empty(limit), map[], 0), Arrivals(others));
            var g1 := Step(g, Connect(m, 0, 0));
            var es := Spins(m, k) + [Connect(m, 0, 0)];
            var g2 := Run(g1, es);
            && Registrations(g1, es) + limit == IDS + 1
            && g.handlers in g1.held && g.handlers in g2.held && g2.held[g.handlers] == g1.held[g.handlers]
            && !Owns(g2.pool, g1.held[g.handlers], g.handlers, m) && Owns(g2.pool, g1.held[g.handlers], IDS, m)
  {
    hide Step, Run, Owns, Spun, Spins, Registrations, Sound, Arrivals, Kicked, IdsTo;
    FirstSpin(others, limit, m);
    SpinMany(others, limit, m, 0, k, [Connect(m, 0, 0)]);
    TurnedRound(others, limit, m, k);
    LastJoin(Spun(others, limit, m, k), m, |others|);
    OneOwner(Run(Spun(others, limit, m, k), [Connect(m, 0, 0)]).pool, limit, |others|, IDS, m);
  }

  /** The gateway before any connection. */
  function Idle(limit: nat): (g: Gateway)
    ensures g.pool.nextId >= 1
  {
    Gateway(Empty(limit), map[], 0)
  }

  /** After `arrivals`, machine `m` connects; `es` has one registration more than `StaleHandlerHarmless` allows, and in
      the end the id that the handler of `m` holds belongs to `n`, through handler `h`. */
  ghost predicate TakenOver(limit: nat, arrivals: seq<Event>, m: MachineId, es: seq<Event>, n: MachineId, h: nat) {
    var g := Run(Idle(limit), arrivals);
    var g1 := Step(g, Connect(m, 0, 0));
    var g2 := Run(g1, es);
    && Sound(Idle(limit))
    && Registrations(g1, es) + limit == IDS + 1
    && g.handlers != h
    && g.handlers in g1.held && g.handlers in g2.held && g2.held[g.handlers] == g1.held[g.handlers]
    && Owns(g2.pool, g1.held[g.handlers], h, n)
  }

  lemma SomeMachines(limit: nat) returns (others: seq<MachineId>, m: MachineId, n: MachineId)
    requires 1 <= limit <= IDS
    ensures |others| == limit - 1 && Distinct(others) && m !in others && n !in others && m != n
  {
    var ms := EnoughMachines(limit + 1);
    others, m, n := ms[..limit - 1], ms[limit - 1], ms[limit];
  }

  /** Under every limit below 65535 the bound is tight: with one registration more a stale handler can remove another
      machine. */
  lemma TightUnderEveryLimit(limit: nat)
    returns (arrivals: seq<Event>, m: MachineId, es: seq<Event>, n: MachineId)
    requires 1 <= limit < IDS
    ensures m != n && TakenOver(limit, arrivals, m, es, n, IDS)
  {
    hide Run, Step, Registrations, Sound, Owns, Distinct;
    var others;
    others, m, n := SomeMachines(limit);
    arrivals, es := Arrivals(others), Spins(m, IDS - limit) + [Cleanup(IDS - 1), Connect(n, 0, 0)];
    FirstSpin(others, limit, m);
    BoundIsTight(others, m, n, limit, IDS - limit);
  }

  /** Under every limit up to 65535, that one included, it can remove a newer connection of its own machine. */
  lemma TightForOneselfUnderEveryLimit(limit: nat) returns (arrivals: seq<Event>, m: MachineId, es: seq<Event>)
    requires 1 <= limit <= IDS
    ensures TakenOver(limit, arrivals, m, es, m, IDS)
  {
    hide Run, Step, Registrations, Sound, Owns, Distinct;
    var others, n;
    others, m, n := SomeMachines(limit);
    arrivals, es := Arrivals(others), Spins(m, IDS - limit) + [Connect(m, 0, 0)];
    FirstSpin(others, limit, m);
    BoundIsTightForOneself(others, m, limit, IDS - limit);
  }
}
