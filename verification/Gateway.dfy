/** Runs of the connection pool, and of the connection handlers that share it. */
module Gateway {
  import opened Bytes
  import opened Outcomes
  import opened ConnPool

  // ---------- Runs of the pool ----------

  datatype PoolEvent =
    | Join(machine: MachineId, addr: nat, capabilities: u16, sender: Sender)
    | Leave(id: u16)

  function StepPool(p: Pool, e: PoolEvent): (q: Pool)
    requires p.nextId >= 1
    ensures q.nextId >= 1 && q.maxConnections == p.maxConnections
  {
    match e
    case Join(m, addr, capabilities, sender) => RegisterStep(p, m, addr, capabilities, sender).0
    case Leave(id) => UnregisterStep(p, id)
  }

  /** The id an event hands out, if any. */
  function HandOut(p: Pool, e: PoolEvent): Option<u16>
    requires p.nextId >= 1
  {
    match e
    case Join(m, addr, capabilities, sender) =>
      (match RegisterStep(p, m, addr, capabilities, sender).1
       case Registered(id) => Some(id)
       case _ => None)
    case Leave(_) => None
  }

  function RunPool(p: Pool, es: seq<PoolEvent>): (q: Pool)
    requires p.nextId >= 1
    ensures q.nextId >= 1 && q.maxConnections == p.maxConnections
    decreases |es|
  {
    if es == [] then p else RunPool(StepPool(p, es[0]), es[1..])
  }

  /** The ids a run hands out, in order. */
  function Log(p: Pool, es: seq<PoolEvent>): seq<u16>
    requires p.nextId >= 1
    decreases |es|
  {
    if es == [] then [] else
      (match HandOut(p, es[0]) case Some(id) => [id] case None => []) + Log(StepPool(p, es[0]), es[1..])
  }

  lemma StepKeepsConsistent(p: Pool, e: PoolEvent)
    requires Consistent(p)
    ensures Consistent(StepPool(p, e))
  {
    match e
    case Join(m, addr, capabilities, sender) => RegisterKeepsConsistent(p, m, addr, capabilities, sender);
    case Leave(id) => UnregisterKeepsConsistent(p, id);
  }

  /** Every reachable pool is consistent. */
  lemma {:induction false} RunKeepsConsistent(p: Pool, es: seq<PoolEvent>)
    requires Consistent(p)
    ensures Consistent(RunPool(p, es))
    decreases |es|
  {
    if es != [] {
      StepKeepsConsistent(p, es[0]);
      RunKeepsConsistent(StepPool(p, es[0]), es[1..]);
    }
  }

  // ---------- Quarantine of ids ----------

  lemma AdvanceAdd(id: u16, a: nat, b: nat)
    requires id >= 1
    ensures Advance(Advance(id, a), b) == Advance(id, a + b)
  {
  }

  /** The cursor only comes back to where it was after a whole turn. */
  lemma AdvanceReturns(id: u16, k: nat)
    requires id >= 1 && k > 0 && Advance(id, k) == id
    ensures k >= IDS
  {
  }

  function SetOf(s: seq<u16>): set<u16> {
    set id | id in s
  }

  /** What one hand-out does: the id is the first free one from the cursor, everything skipped was in use. */
  lemma HandOutSweeps(p: Pool, e: PoolEvent) returns (k: nat)
    requires Consistent(p) && HandOut(p, e).Some?
    ensures HandOut(p, e) == Some(Advance(p.nextId, k))
    ensures StepPool(p, e).nextId == Advance(p.nextId, k + 1)
    ensures forall i :: 0 <= i < k ==> Advance(p.nextId, i) in p.byShortId
    ensures Advance(p.nextId, k) in StepPool(p, e).byShortId
    ensures StepPool(p, e).byShortId.Keys <= p.byShortId.Keys + {Advance(p.nextId, k)}
  {
    var q := Kicked(p, e.machine);
    KickedSize(p, e.machine);
    SweepFinds(q.byShortId.Keys, q.nextId, 0, IDS);
    k := Sweep(q.byShortId.Keys, q.nextId, 0, IDS).value;
  }

  lemma QuietStep(p: Pool, e: PoolEvent)
    requires Consistent(p) && HandOut(p, e).None?
    ensures StepPool(p, e).nextId == p.nextId && StepPool(p, e).byShortId.Keys <= p.byShortId.Keys
  {
    if e.Join? {
      RegisterOutcome(p, e.machine, e.addr, e.capabilities, e.sender);
    }
  }

  /** The sweep argument. The cursor has passed `d` ids since it stood behind `x`; each of them is in `known`,
      and so is every id in use. When `x` is handed out again, the cursor has passed every other id. */
  lemma {:induction false} SweepCovers(p: Pool, es: seq<PoolEvent>, x: u16, d: nat, known: set<u16>, j: nat)
    requires Consistent(p) && x >= 1 && x in known
    requires p.nextId == Advance(x, 1 + d) && p.byShortId.Keys <= known
    requires forall i :: 1 <= i < 1 + d ==> Advance(x, i) in known
    requires j < |Log(p, es)| && Log(p, es)[j] == x
    ensures IdsTo(IDS) <= known + SetOf(Log(p, es)[..j])
    decreases |es|
  {
    hide Advance, StepPool, HandOut, Log, IdsTo, Consistent, SetOf;
    LogStep(p, es);
    var q := StepPool(p, es[0]);
    StepKeepsConsistent(p, es[0]);
    if HandOut(p, es[0]).None? {
      QuietStep(p, es[0]);
      SweepCovers(q, es[1..], x, d, known, j);
    } else {
      var y := HandOut(p, es[0]).value;
      var k := HandOutSweeps(p, es[0]);
      AdvanceAdd(x, 1 + d, k);
      AdvanceAdd(x, 1 + d, k + 1);
      SkippedKnown(p, x, d, k, known);
      if y == x {
        AdvanceReturns(x, 1 + d + k);
        FullTurn(x, d + k, known);
      } else {
        SweepCovers(q, es[1..], x, d + k + 1, known + {y}, j - 1);
        SetOfCons(y, Log(q, es[1..])[..j - 1]);
        assert Log(p, es)[..j] == [y] + Log(q, es[1..])[..j - 1];
      }
    }
  }

  lemma SetOfCons(y: u16, s: seq<u16>)
    ensures SetOf([y] + s) == {y} + SetOf(s)
  {
  }

  lemma LogStep(p: Pool, es: seq<PoolEvent>)
    requires p.nextId >= 1 && Log(p, es) != []
    ensures es != []
    ensures HandOut(p, es[0]).None? ==> Log(p, es) == Log(StepPool(p, es[0]), es[1..])
    ensures HandOut(p, es[0]).Some? ==> Log(p, es) == [HandOut(p, es[0]).value] + Log(StepPool(p, es[0]), es[1..])
  {
  }

  lemma SkippedKnown(p: Pool, x: u16, d: nat, k: nat, known: set<u16>)
    requires x >= 1 && p.nextId == Advance(x, 1 + d) && p.byShortId.Keys <= known
    requires forall i :: 1 <= i < 1 + d ==> Advance(x, i) in known
    requires forall i :: 0 <= i < k ==> Advance(p.nextId, i) in p.byShortId
    ensures forall i :: 1 <= i < 1 + d + k ==> Advance(x, i) in known
  {
    forall i | 1 + d <= i < 1 + d + k ensures Advance(x, i) in known {
      AdvanceAdd(x, 1 + d, i - 1 - d);
      assert Advance(p.nextId, i - 1 - d) in p.byShortId;
    }
  }

  lemma FullTurn(x: u16, n: nat, known: set<u16>)
    requires x >= 1 && x in known && n + 1 >= IDS
    requires forall i :: 1 <= i < 1 + n ==> Advance(x, i) in known
    ensures IdsTo(IDS) <= known
  {
    forall id | id in IdsTo(IDS) ensures id in known {
      assert IsId(id, IDS);
      var k := AdvanceReaches(x, id);
      if k == 0 {
        assert id == x;
      }
    }
  }

  /** Between two hand-outs of one id at least 65535 - max_connections other ids are handed out. */
  lemma Quarantine(p: Pool, first: PoolEvent, es: seq<PoolEvent>, x: u16, j: nat)
    requires Consistent(p) && HandOut(p, first) == Some(x)
    requires var log := Log(StepPool(p, first), es); j < |log| && log[j] == x
    ensures |SetOf(Log(StepPool(p, first), es)[..j]) - {x}| >= IDS - p.maxConnections
  {
    hide Advance, StepPool, HandOut, Log, IdsTo;
    var q := StepPool(p, first);
    StepKeepsConsistent(p, first);
    var k := HandOutSweeps(p, first);
    AdvanceAdd(p.nextId, k, 1);
    SweepCovers(q, es, x, 0, q.byShortId.Keys, j);
    var others := SetOf(Log(q, es)[..j]) - {x};
    CountIds(IDS);
    SubsetSize(IdsTo(IDS), q.byShortId.Keys + others);
    UnionSize(q.byShortId.Keys, others);
  }

  lemma UnionSize(a: set<u16>, b: set<u16>)
    ensures |a + b| <= |a| + |b|
  {
    assert a + b == a + (b - a);
    SubsetSize(b - a, b);
  }

  // ---------- Connection handlers ----------

  /** The shared pool and, for every handler that may still clean up, the short id it was given. Handlers are
      numbered as they connect; the number stands for the handler's channel. */
  datatype Gateway = Gateway(pool: Pool, held: map<nat, u16>, handlers: nat)

  datatype Event =
    | Connect(machine: MachineId, addr: nat, capabilities: u16)  // authenticated, now registering
    | Cleanup(handler: nat)                                      // the relay loop ended
    | Abort(handler: nat)                                        // an early return that skips the cleanup

  /** The pool operation an event performs, if any. */
  function PoolEventOf(g: Gateway, e: Event): Option<PoolEvent> {
    match e
    case Connect(m, addr, capabilities) => Some(Join(m, addr, capabilities, g.handlers))
    case Cleanup(h) => if h in g.held then Some(Leave(g.held[h])) else None
    case Abort(_) => None
  }

  function Step(g: Gateway, e: Event): (g': Gateway)
    requires g.pool.nextId >= 1
    ensures g'.pool.nextId >= 1
  {
    match e
    case Connect(m, addr, capabilities) =>
      var join := Join(m, addr, capabilities, g.handlers);
      var held := match HandOut(g.pool, join) case Some(id) => g.held[g.handlers := id] case None => g.held;
      Gateway(StepPool(g.pool, join), held, g.handlers + 1)
    case Cleanup(h) =>
      if h in g.held then Gateway(StepPool(g.pool, Leave(g.held[h])), g.held - {h}, g.handlers) else g
    case Abort(h) => g.(held := g.held - {h})
  }

  function Run(g: Gateway, es: seq<Event>): (g': Gateway)
    requires g.pool.nextId >= 1
    ensures g'.pool.nextId >= 1
    decreases |es|
  {
    if es == [] then g else Run(Step(g, es[0]), es[1..])
  }

  /** The pool operations of a run of handlers, in the order they take effect. */
  function PoolEvents(g: Gateway, es: seq<Event>): seq<PoolEvent>
    requires g.pool.nextId >= 1
    decreases |es|
  {
    if es == [] then [] else
      (match PoolEventOf(g, es[0]) case Some(e) => [e] case None => []) + PoolEvents(Step(g, es[0]), es[1..])
  }

  /** The number of registrations in a run. */
  function Registrations(g: Gateway, es: seq<Event>): nat
    requires g.pool.nextId >= 1
  {
    |Log(g.pool, PoolEvents(g, es))|
  }

  lemma StepsThePool(g: Gateway, e: Event)
    requires g.pool.nextId >= 1
    ensures Step(g, e).pool ==
              match PoolEventOf(g, e) case Some(pe) => StepPool(g.pool, pe) case None => g.pool
  {
  }

  /** Whatever the handlers do, the pool sees one sequence of operations. */
  lemma {:induction false} RunsThePool(g: Gateway, es: seq<Event>)
    requires g.pool.nextId >= 1
    ensures Run(g, es).pool == RunPool(g.pool, PoolEvents(g, es))
    decreases |es|
  {
    hide StepPool, HandOut;
    if es != [] {
      StepsThePool(g, es[0]);
      RunsThePool(Step(g, es[0]), es[1..]);
      var rest := PoolEvents(Step(g, es[0]), es[1..]);
      var e := PoolEventOf(g, es[0]);
      if e.Some? {
        assert PoolEvents(g, es) == [e.value] + rest;
      } else {
        assert PoolEvents(g, es) == rest;
      }
    }
  }

  ghost predicate Sound(g: Gateway) {
    Consistent(g.pool) && forall h :: h in g.held ==> h < g.handlers
  }

  /** Every state that handlers can bring about, in any interleaving, is sound. */
  lemma {:induction false} RunKeepsSound(g: Gateway, es: seq<Event>)
    requires Sound(g)
    ensures Sound(Run(g, es))
    decreases |es|
  {
    hide StepPool, HandOut;
    if es != [] {
      StepsThePool(g, es[0]);
      var e := PoolEventOf(g, es[0]);
      if e.Some? {
        StepKeepsConsistent(g.pool, e.value);
      }
      RunKeepsSound(Step(g, es[0]), es[1..]);
    }
  }

  /** A handler keeps the id it was given until it ends. */
  lemma {:induction false} HeldStays(g: Gateway, es: seq<Event>, h: nat)
    requires g.pool.nextId >= 1 && h < g.handlers
    ensures h in Run(g, es).held ==> h in g.held && Run(g, es).held[h] == g.held[h]
    decreases |es|
  {
    hide StepPool, HandOut;
    if es != [] {
      HeldStays(Step(g, es[0]), es[1..], h);
    }
  }

  lemma KickedFrame(p: Pool, m: MachineId, x: u16)
    requires Consistent(p) && x in Kicked(p, m).byShortId
    ensures x in p.byShortId && Kicked(p, m).byShortId[x] == p.byShortId[x]
    ensures x in Kicked(p, m).senders && x in p.senders && Kicked(p, m).senders[x] == p.senders[x]
  {
  }

  lemma EntryFrame(p: Pool, e: PoolEvent, x: u16)
    requires Consistent(p) && HandOut(p, e) != Some(x) && x in StepPool(p, e).byShortId
    ensures x in p.byShortId && StepPool(p, e).byShortId[x] == p.byShortId[x]
    ensures x in StepPool(p, e).senders && x in p.senders && StepPool(p, e).senders[x] == p.senders[x]
  {
    if e.Join? {
      hide Sweep, Advance, Consistent, Kicked;
      KickedFrame(p, e.machine, x);
    }
  }

  /** Unless it is handed out again, an id in the pool still belongs to whoever had it. */
  lemma {:induction false} EntryStays(p: Pool, es: seq<PoolEvent>, x: u16)
    requires Consistent(p) && x !in Log(p, es) && x in RunPool(p, es).byShortId
    ensures Consistent(RunPool(p, es))
    ensures x in p.byShortId && RunPool(p, es).byShortId[x] == p.byShortId[x]
    ensures RunPool(p, es).senders[x] == p.senders[x]
    decreases |es|
  {
    hide StepPool, HandOut;
    if es != [] {
      StepKeepsConsistent(p, es[0]);
      EntryStays(StepPool(p, es[0]), es[1..], x);
      EntryFrame(p, es[0], x);
    }
  }

  lemma {:induction false} SetOfSize(s: seq<u16>)
    ensures |SetOf(s)| <= |s|
  {
    if s != [] {
      SetOfSize(s[1..]);
      assert SetOf(s) == {s[0]} + SetOf(s[1..]);
      UnionSize({s[0]}, SetOf(s[1..]));
    }
  }

  /** Few registrations leave an id with its owner. */
  lemma NotYetReused(p: Pool, first: PoolEvent, es: seq<PoolEvent>, x: u16)
    requires Consistent(p) && HandOut(p, first) == Some(x)
    requires |Log(StepPool(p, first), es)| + p.maxConnections <= IDS
    ensures x !in Log(StepPool(p, first), es)
  {
    hide StepPool, HandOut, Log;
    var log := Log(StepPool(p, first), es);
    if x in log {
      var j :| 0 <= j < |log| && log[j] == x;
      Quarantine(p, first, es, x, j);
      SetOfSize(log[..j]);
      SubsetSize(SetOf(log[..j]) - {x}, SetOf(log[..j]));
    }
  }

  ghost predicate Owns(p: Pool, x: u16, h: nat, m: MachineId) {
    x in p.byShortId && x in p.senders && p.senders[x] == h && p.byShortId[x].machineId == m
  }

  function EntryOf(p: Pool, id: u16): Option<(ConnInfo, Sender)> {
    if id in p.byShortId && id in p.senders then Some((p.byShortId[id], p.senders[id])) else None
  }

  /** From `p` to `q` the registration under `x` is gone and all others are as they were. */
  ghost predicate RemovedOnly(p: Pool, q: Pool, x: u16) {
    x !in q.byShortId && forall id: u16 :: id != x ==> EntryOf(q, id) == EntryOf(p, id)
  }

  lemma UnregisterRemovesOnly(p: Pool, x: u16)
    ensures x in p.byShortId ==> RemovedOnly(p, UnregisterStep(p, x), x)
    ensures x !in p.byShortId ==> UnregisterStep(p, x) == p
  {
  }

  lemma JoinOwns(p: Pool, join: PoolEvent)
    requires Consistent(p) && join.Join? && HandOut(p, join).Some?
    ensures Owns(StepPool(p, join), HandOut(p, join).value, join.sender, join.machine)
  {
    RegisterOutcome(p, join.machine, join.addr, join.capabilities, join.sender);
  }

  /** A registration stays with its owner, if at all, for as long as few others follow. */
  lemma OwnerStays(p: Pool, join: PoolEvent, es: seq<PoolEvent>)
    requires Consistent(p) && join.Join? && HandOut(p, join).Some?
    requires |Log(StepPool(p, join), es)| + p.maxConnections <= IDS
    ensures var x := HandOut(p, join).value;
            x in RunPool(StepPool(p, join), es).byShortId ==>
              Owns(RunPool(StepPool(p, join), es), x, join.sender, join.machine)
  {
    hide StepPool, HandOut, Log, RunPool;
    var x := HandOut(p, join).value;
    JoinOwns(p, join);
    StepKeepsConsistent(p, join);
    NotYetReused(p, join, es, x);
    if x in RunPool(StepPool(p, join), es).byShortId {
      EntryStays(StepPool(p, join), es, x);
    }
  }

  /** A handler `h` registers machine `m` and is given id `x`; then, in any interleaving, at most
      65535 - max_connections registrations happen before `h` cleans up. Its cleanup removes its own
      registration or nothing, never another robot's. */
  lemma StaleHandlerHarmless(g: Gateway, m: MachineId, addr: nat, capabilities: u16, es: seq<Event>)
    requires Sound(g)
    requires var g1 := Step(g, Connect(m, addr, capabilities));
             g.handlers in g1.held && Registrations(g1, es) + g.pool.maxConnections <= IDS
    ensures var h := g.handlers;
            var g1 := Step(g, Connect(m, addr, capabilities));
            var g2 := Run(g1, es);
            var g3 := Step(g2, Cleanup(h));
            || g3.pool == g2.pool
            || (Owns(g2.pool, g1.held[h], h, m) && RemovedOnly(g2.pool, g3.pool, g1.held[h]))
  {
    hide StepPool, HandOut, Log, PoolEvents, RunPool, Owns, RemovedOnly;
    var h := g.handlers;
    var join := Join(m, addr, capabilities, h);
    var g1 := Step(g, Connect(m, addr, capabilities));
    var g2 := Run(g1, es);
    HeldStays(g1, es, h);
    RunsThePool(g1, es);
    if h in g2.held {
      OwnerStays(g.pool, join, PoolEvents(g1, es));
      UnregisterRemovesOnly(g2.pool, g1.held[h]);
      LeaveStep(g2.pool, g1.held[h]);
    }
  }

  lemma LeaveStep(p: Pool, x: u16)
    requires p.nextId >= 1
    ensures StepPool(p, Leave(x)) == UnregisterStep(p, x)
  {
  }

  /** A connection that is let in is held by its handler under the id it got; one that is refused leaves no trace. */
  lemma ConnectHolds(g: Gateway, m: MachineId, addr: nat, capabilities: u16)
    requires Sound(g)
    ensures var g' := Step(g, Connect(m, addr, capabilities));
            var (p, r) := RegisterStep(g.pool, m, addr, capabilities, g.handlers);
            && g'.pool == p && g'.handlers == g.handlers + 1
            && (r.Registered? ==>
                  && g'.held == g.held[g.handlers := r.id]
                  && EntryOf(p, r.id) == Some((ConnInfo(r.id, m, addr, capabilities), g.handlers)))
            && (!r.Registered? ==> g'.held == g.held && p == g.pool)
  {
    hide RegisterStep, Consistent;
    RegisteredEntry(g.pool, m, addr, capabilities, g.handlers);
  }

  lemma RegisteredEntry(p: Pool, m: MachineId, addr: nat, capabilities: u16, sender: Sender)
    requires Consistent(p)
    ensures var (q, r) := RegisterStep(p, m, addr, capabilities, sender);
            && (r.Registered? ==> EntryOf(q, r.id) == Some((ConnInfo(r.id, m, addr, capabilities), sender)))
            && (!r.Registered? ==> q == p)
  {
    RegisterOutcome(p, m, addr, capabilities, sender);
    RegisterKeepsConsistent(p, m, addr, capabilities, sender);
    hide Sweep, Advance, Kicked;
  }

  /** A cleanup takes exactly the held id out of the pool, and is done once; an abort leaves the pool alone. */
  lemma HandlerEnds(g: Gateway, h: nat)
    requires Sound(g) && h in g.held
    ensures var g' := Step(g, Cleanup(h));
            && EntryOf(g'.pool, g.held[h]) == None && g'.held == g.held - {h} && Step(g', Cleanup(h)) == g'
            && forall id: u16 :: id != g.held[h] ==> EntryOf(g'.pool, id) == EntryOf(g.pool, id)
    ensures Step(g, Abort(h)) == g.(held := g.held - {h})
  {
  }

  /** While it holds an id that is still its own, a handler's cleanup does remove its registration. */
  lemma OwnCleanup(g: Gateway, h: nat, m: MachineId)
    requires Sound(g) && h in g.held && Owns(g.pool, g.held[h], h, m)
    ensures var q := Step(g, Cleanup(h)).pool;
            RemovedOnly(g.pool, q, g.held[h]) && m !in q.byMachineId && q.nextId == g.pool.nextId
  {
    UnregisterOutcome(g.pool, g.held[h]);
    UnregisterRemovesOnly(g.pool, g.held[h]);
  }
}
