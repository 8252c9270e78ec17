/** The gateway's connection pool: three maps over robots and a round-robin allocator of short ids. */
module ConnPool {
  import opened Bytes
  import opened Outcomes

  type MachineId = s: seq<byte> | |s| == 16 witness seq(16, _ => 0)
  /** The channel created by one connection handler, named by the handler's number. */
  type Sender = nat

  datatype ConnInfo = ConnInfo(shortId: u16, machineId: MachineId, addr: nat, capabilities: u16)

  datatype Outcome = Registered(id: u16) | ConnectionLimit | Panic

  /** The fields of `ConnPool`. */
  datatype Pool = Pool(nextId: u16, byShortId: map<u16, ConnInfo>, byMachineId: map<MachineId, u16>,
                       senders: map<u16, Sender>, maxConnections: nat)

  const IDS := 0xFFFF

  function Empty(maxConnections: nat): Pool {
    Pool(1, map[], map[], map[], maxConnections)
  }

  // ---------- The allocator ----------

  /** The id `k` places after `id` in the cycle 1, 2, ..., 65535, 1, ... */
  function Advance(id: u16, k: nat): (r: u16)
    requires id >= 1
    ensures 1 <= r
  {
    (id - 1 + k) % IDS + 1
  }

  lemma AdvanceStep(id: u16, k: nat)
    requires id >= 1
    ensures Advance(id, k + 1) == if Advance(id, k) == IDS then 1 else Advance(id, k) + 1
    ensures 0 < k < IDS ==> Advance(id, k) != id
    ensures Advance(id, IDS) == id == Advance(id, 0)
  {
  }

  /** How many ids from `from` on are in use before the first free one, looking at `n` ids at most. */
  function Sweep(used: set<u16>, from: u16, k: nat, n: nat): Option<nat>
    requires from >= 1 && k <= n
    decreases n - k
  {
    if k == n then None
    else if Advance(from, k) !in used then Some(k)
    else Sweep(used, from, k + 1, n)
  }

  lemma SweepUnfolds(used: set<u16>, from: u16, k: nat, n: nat)
    requires from >= 1 && k < n
    ensures Sweep(used, from, k, n) == if Advance(from, k) !in used then Some(k) else Sweep(used, from, k + 1, n)
    ensures Sweep(used, from, n, n) == None
  {
    hide Advance;
  }

  lemma {:induction false} SweepFinds(used: set<u16>, from: u16, k: nat, n: nat)
    requires from >= 1 && k <= n
    ensures var r := Sweep(used, from, k, n);
            && (r.Some? ==> k <= r.value < n && Advance(from, r.value) !in used)
            && (forall j :: k <= j < (if r.Some? then r.value else n) ==> Advance(from, j) in used)
    decreases n - k
  {
    if k < n && Advance(from, k) in used {
      SweepFinds(used, from, k + 1, n);
    }
  }

  // ---------- Operations ----------

  /** The pool after a live connection of `m` has been kicked out. */
  function Kicked(p: Pool, m: MachineId): Pool {
    if m in p.byMachineId
    then p.(byShortId := p.byShortId - {p.byMachineId[m]}, senders := p.senders - {p.byMachineId[m]})
    else p
  }

  /** The three insertions and the moved cursor. */
  function Inserted(q: Pool, id: u16, nextId: u16, m: MachineId, addr: nat, capabilities: u16, sender: Sender): Pool {
    q.(nextId := nextId,
       byShortId := q.byShortId[id := ConnInfo(id, m, addr, capabilities)],
       byMachineId := q.byMachineId[m := id],
       senders := q.senders[id := sender])
  }

  function RegisterStep(p: Pool, m: MachineId, addr: nat, capabilities: u16, sender: Sender): (Pool, Outcome)
    requires p.nextId >= 1
  {
    var q := Kicked(p, m);
    if |q.byShortId| >= q.maxConnections then (q, ConnectionLimit)
    else
      match Sweep(q.byShortId.Keys, q.nextId, 0, IDS)
      case None => (q, Panic)
      case Some(k) =>
        var id := Advance(q.nextId, k);
        (Inserted(q, id, Advance(q.nextId, k + 1), m, addr, capabilities, sender),
         Registered(id))
  }

  function UnregisterStep(p: Pool, id: u16): Pool {
    if id in p.byShortId
    then p.(byShortId := p.byShortId - {id},
            byMachineId := p.byMachineId - {p.byShortId[id].machineId},
            senders := p.senders - {id})
    else p
  }

  // ---------- The pool as it runs ----------

  class ConnPool {
    var nextId: u16
    var byShortId: map<u16, ConnInfo>
    var byMachineId: map<MachineId, u16>
    var senders: map<u16, Sender>
    var maxConnections: nat

    function State(): Pool
      reads this
    {
      Pool(nextId, byShortId, byMachineId, senders, maxConnections)
    }

    constructor (maxConnections: nat)
      ensures State() == Empty(maxConnections)
    {
      this.nextId := 1;
      this.byShortId := map[];
      this.byMachineId := map[];
      this.senders := map[];
      this.maxConnections := maxConnections;
    }

    /** `allocate_id`; `None` is the panic. The cursor is all that changes, and a panic leaves even that
        where it was. */
    method AllocateId() returns (r: Option<u16>)
      requires nextId >= 1
      modifies this`nextId
      ensures var s := Sweep(byShortId.Keys, old(nextId), 0, IDS);
              if s.Some?
              then r == Some(Advance(old(nextId), s.value)) && nextId == Advance(old(nextId), s.value + 1)
              else r == None && nextId == old(nextId)
    {
      hide Sweep, Advance;
      var start := nextId;
      ghost var k := 0;
      AdvanceStep(start, 0);
      while true
        invariant 0 <= k < IDS && start == old(nextId)
        invariant nextId == Advance(start, k)
        invariant Sweep(byShortId.Keys, start, k, IDS) == Sweep(byShortId.Keys, start, 0, IDS)
        decreases IDS - k
      {
        var candidate := nextId;
        SweepUnfolds(byShortId.Keys, start, k, IDS);
        AdvanceStep(start, k);
        AdvanceStep(start, k + 1);
        nextId := (nextId + 1) % 0x1_0000;
        if nextId == 0 {
          nextId := 1;
        }
        if candidate !in byShortId {
          return Some(candidate);
        }
        if nextId == start {
          return None;
        }
        k := k + 1;
      }
    }

    method Register(m: MachineId, addr: nat, capabilities: u16, sender: Sender) returns (r: Outcome)
      requires nextId >= 1
      modifies this
      ensures (State(), r) == RegisterStep(old(State()), m, addr, capabilities, sender)
    {
      if m in byMachineId {
        var existing := byMachineId[m];
        byShortId := byShortId - {existing};
        senders := senders - {existing};
      }
      if |byShortId| >= maxConnections {
        return ConnectionLimit;
      }
      var id := AllocateId();
      if id.None? {
        return Panic;
      }
      byShortId := byShortId[id.value := ConnInfo(id.value, m, addr, capabilities)];
      byMachineId := byMachineId[m := id.value];
      senders := senders[id.value := sender];
      r := Registered(id.value);
    }

    method Unregister(id: u16)
      modifies this
      ensures State() == UnregisterStep(old(State()), id)
    {
      if id in byShortId {
        var info := byShortId[id];
        byShortId := byShortId - {id};
        byMachineId := byMachineId - {info.machineId};
        senders := senders - {id};
      }
    }
  }

  // ---------- Consistency ----------

  /** The maps are mutually inverse, id 0 is not used and the limit is kept. */
  ghost predicate Consistent(p: Pool) {
    && p.nextId >= 1
    && p.senders.Keys == p.byShortId.Keys
    && 0 !in p.byShortId
    && (forall id :: id in p.byShortId ==>
          && p.byShortId[id].shortId == id
          && p.byShortId[id].machineId in p.byMachineId
          && p.byMachineId[p.byShortId[id].machineId] == id)
    && (forall m :: m in p.byMachineId ==>
          && p.byMachineId[m] in p.byShortId
          && p.byShortId[p.byMachineId[m]].machineId == m)
    && |p.byShortId| <= p.maxConnections
  }

  lemma UnregisterKeepsConsistent(p: Pool, id: u16)
    requires Consistent(p)
    ensures Consistent(UnregisterStep(p, id))
  {
    var q := UnregisterStep(p, id);
    if id in p.byShortId {
      assert q.byShortId.Keys == p.byShortId.Keys - {id};
      assert |q.byShortId.Keys| <= |p.byShortId.Keys|;
    }
  }

  lemma KickedSize(p: Pool, m: MachineId)
    requires Consistent(p)
    ensures |Kicked(p, m).byShortId| == |p.byShortId| - (if m in p.byMachineId then 1 else 0)
    ensures Kicked(p, m).byShortId.Keys <= p.byShortId.Keys
  {
    if m in p.byMachineId {
      assert Kicked(p, m).byShortId.Keys == p.byShortId.Keys - {p.byMachineId[m]};
    }
  }

  /** Consistent, except that `m` is not connected and its entry by machine id may be left over. */
  ghost predicate ConsistentWithout(p: Pool, m: MachineId) {
    && p.nextId >= 1
    && p.senders.Keys == p.byShortId.Keys
    && 0 !in p.byShortId
    && (forall id :: id in p.byShortId ==>
          && p.byShortId[id].shortId == id
          && p.byShortId[id].machineId != m
          && p.byShortId[id].machineId in p.byMachineId
          && p.byMachineId[p.byShortId[id].machineId] == id)
    && (forall n :: n in p.byMachineId && n != m ==>
          && p.byMachineId[n] in p.byShortId
          && p.byShortId[p.byMachineId[n]].machineId == n)
    && |p.byShortId| <= p.maxConnections
  }

  lemma KickedConsistent(p: Pool, m: MachineId)
    requires Consistent(p)
    ensures ConsistentWithout(Kicked(p, m), m)
  {
    KickedSize(p, m);
  }

  lemma InsertedById(q: Pool, p: Pool, id: u16, m: MachineId, i: u16)
    requires ConsistentWithout(q, m) && id !in q.byShortId
    requires id in p.byShortId && id in p.senders
    requires p == Inserted(q, id, p.nextId, m, p.byShortId[id].addr, p.byShortId[id].capabilities, p.senders[id])
    requires i in p.byShortId
    ensures p.byShortId[i].shortId == i
    ensures p.byShortId[i].machineId in p.byMachineId && p.byMachineId[p.byShortId[i].machineId] == i
  {
    if i != id {
      assert i in q.byShortId && p.byShortId[i] == q.byShortId[i];
    }
  }

  lemma InsertedByMachine(q: Pool, p: Pool, id: u16, m: MachineId, n: MachineId)
    requires ConsistentWithout(q, m) && id !in q.byShortId
    requires id in p.byShortId && id in p.senders
    requires p == Inserted(q, id, p.nextId, m, p.byShortId[id].addr, p.byShortId[id].capabilities, p.senders[id])
    requires n in p.byMachineId
    ensures p.byMachineId[n] in p.byShortId && p.byShortId[p.byMachineId[n]].machineId == n
  {
    if n != m {
      assert n in q.byMachineId && p.byMachineId[n] == q.byMachineId[n];
    }
  }

  lemma InsertedConsistent(q: Pool, id: u16, nextId: u16, m: MachineId, addr: nat, capabilities: u16, sender: Sender)
    requires ConsistentWithout(q, m) && id >= 1 && nextId >= 1 && id !in q.byShortId
    requires |q.byShortId| < q.maxConnections
    ensures Consistent(Inserted(q, id, nextId, m, addr, capabilities, sender))
  {
    var p := Inserted(q, id, nextId, m, addr, capabilities, sender);
    assert p.byShortId.Keys == q.byShortId.Keys + {id};
    assert p.senders.Keys == q.senders.Keys + {id};
    forall i | i in p.byShortId
      ensures p.byShortId[i].shortId == i
              && p.byShortId[i].machineId in p.byMachineId && p.byMachineId[p.byShortId[i].machineId] == i
    {
      InsertedById(q, p, id, m, i);
    }
    forall n | n in p.byMachineId
      ensures p.byMachineId[n] in p.byShortId && p.byShortId[p.byMachineId[n]].machineId == n
    {
      InsertedByMachine(q, p, id, m, n);
    }
  }

  lemma RegisterKeepsConsistent(p: Pool, m: MachineId, addr: nat, capabilities: u16, sender: Sender)
    requires Consistent(p)
    ensures Consistent(RegisterStep(p, m, addr, capabilities, sender).0)
  {
    var q := Kicked(p, m);
    RegisterOutcome(p, m, addr, capabilities, sender);
    SweepFinds(q.byShortId.Keys, q.nextId, 0, IDS);
    var s := Sweep(q.byShortId.Keys, q.nextId, 0, IDS);
    if RegisterStep(p, m, addr, capabilities, sender).1.Registered? {
      KickedConsistent(p, m);
      InsertedConsistent(q, Advance(q.nextId, s.value), Advance(q.nextId, s.value + 1), m, addr, capabilities, sender);
    }
  }

  /** An unregistration takes out exactly the connection with that id, from all three maps, and leaves the cursor. */
  lemma UnregisterOutcome(p: Pool, id: u16)
    requires Consistent(p)
    ensures var q := UnregisterStep(p, id);
            && id !in q.byShortId && id !in q.senders && (forall m :: m in q.byMachineId ==> q.byMachineId[m] != id)
            && q.nextId == p.nextId && q.maxConnections == p.maxConnections
            && (forall i :: i != id ==>
                  (i in q.byShortId <==> i in p.byShortId)
                  && (i in p.byShortId ==> q.byShortId[i] == p.byShortId[i] && q.senders[i] == p.senders[i]))
            && (forall m :: m in p.byMachineId && p.byMachineId[m] != id ==>
                  m in q.byMachineId && q.byMachineId[m] == p.byMachineId[m])
  {
  }

  // ---------- When registration fails ----------

  predicate IsId(id: int, last: nat) {
    1 <= id <= last
  }

  /** The ids 1 to `last`. */
  function IdsTo(last: nat): set<u16> {
    set id: u16 | 0 <= id < 0x1_0000 && IsId(id, last)
  }

  lemma {:induction false} CountIds(last: nat)
    requires last <= IDS
    ensures |IdsTo(last)| == last
  {
    if last > 0 {
      CountIds(last - 1);
      assert IdsTo(last) == IdsTo(last - 1) + {last};
    }
  }

  lemma AdvanceReaches(from: u16, id: u16) returns (k: nat)
    requires from >= 1 && id >= 1
    ensures k < IDS && Advance(from, k) == id
  {
    k := if id >= from then id - from else id + IDS - from;
  }

  lemma SubsetSize(a: set<u16>, b: set<u16>)
    requires a <= b
    ensures |a| <= |b|
    ensures |a| == |b| ==> a == b
  {
    assert b == a + (b - a);
  }

  /** The sweep comes back empty-handed exactly when all 65535 ids are taken. */
  lemma SweepExhausted(used: set<u16>, from: u16)
    requires from >= 1 && 0 !in used
    ensures Sweep(used, from, 0, IDS).None? <==> |used| == IDS
  {
    CountIds(IDS);
    SweepFinds(used, from, 0, IDS);
    assert used <= IdsTo(IDS);
    SubsetSize(used, IdsTo(IDS));
    if Sweep(used, from, 0, IDS).None? {
      forall id | id in IdsTo(IDS) ensures id in used {
        var k := AdvanceReaches(from, id);
      }
      assert used == IdsTo(IDS);
    } else {
      var id := Advance(from, Sweep(used, from, 0, IDS).value);
      assert IsId(id, IDS) && id in IdsTo(IDS);
    }
  }

  /** The exact outcome of a registration: the limit refuses only machines that are not connected, and the
      allocator panics only with all 65535 ids in use, which a limit of at most 65535 rules out. A failed
      registration changes nothing; a successful one hands out an id nobody else is using. */
  lemma RegisterOutcome(p: Pool, m: MachineId, addr: nat, capabilities: u16, sender: Sender)
    requires Consistent(p)
    ensures var (p', r) := RegisterStep(p, m, addr, capabilities, sender);
            && (r == ConnectionLimit <==> m !in p.byMachineId && |p.byShortId| == p.maxConnections)
            && (r == Panic <==> m !in p.byMachineId && |p.byShortId| < p.maxConnections && |p.byShortId| == 65535)
            && (!r.Registered? ==> p' == p)
            && (r.Registered? ==>
                  && r.id != 0
                  && (r.id in p.byShortId ==> p.byShortId[r.id].machineId == m)
                  && p'.byShortId[r.id] == ConnInfo(r.id, m, addr, capabilities) && p'.senders[r.id] == sender
                  && (forall id :: id != r.id && !(id in p.byShortId && p.byShortId[id].machineId == m) ==>
                        (id in p'.byShortId <==> id in p.byShortId)
                        && (id in p.byShortId ==> p'.byShortId[id] == p.byShortId[id]
                                                  && p'.senders[id] == p.senders[id])))
  {
    var q := Kicked(p, m);
    KickedSize(p, m);
    SweepFinds(q.byShortId.Keys, q.nextId, 0, IDS);
    SweepExhausted(q.byShortId.Keys, q.nextId);
    CountIds(IDS);
    SubsetSize(p.byShortId.Keys, IdsTo(IDS));
    if RegisterStep(p, m, addr, capabilities, sender).1.Registered? {
      KickedConsistent(p, m);
    } else if m !in p.byMachineId {
      assert q == p;
    }
  }

  /** The same by machine: a successful registration points its machine at the new id and leaves the other machines and
      the limit as they are. */
  lemma RegisteredMachines(p: Pool, m: MachineId, addr: nat, capabilities: u16, sender: Sender)
    requires Consistent(p) && RegisterStep(p, m, addr, capabilities, sender).1.Registered?
    ensures var (q, r) := RegisterStep(p, m, addr, capabilities, sender);
            && m in q.byMachineId && q.byMachineId[m] == r.id && q.maxConnections == p.maxConnections
            && (forall n :: n != m ==>
                  (n in q.byMachineId <==> n in p.byMachineId)
                  && (n in p.byMachineId ==> q.byMachineId[n] == p.byMachineId[n]))
  {
    hide Sweep, Advance;
  }

  /** When a machine that is connected registers again: it keeps its short id if and only if every other id from the
      cursor up to that one is in use. */
  lemma ReuseExactly(p: Pool, m: MachineId, addr: nat, capabilities: u16, sender: Sender) returns (k: nat)
    requires Consistent(p) && m in p.byMachineId
    ensures k < IDS && Advance(p.nextId, k) == p.byMachineId[m]
    ensures RegisterStep(p, m, addr, capabilities, sender).1 == Registered(p.byMachineId[m]) <==>
              forall i :: 0 <= i < k ==> Advance(p.nextId, i) in p.byShortId
  {
    var id, q := p.byMachineId[m], Kicked(p, m);
    k := AdvanceReaches(p.nextId, id);
    RegisterOutcome(p, m, addr, capabilities, sender);
    SweepFinds(q.byShortId.Keys, q.nextId, 0, IDS);
    var s := Sweep(q.byShortId.Keys, q.nextId, 0, IDS).value;
    if Advance(p.nextId, s) == id {
      AdvanceInjective(p.nextId, s, k);
    }
    forall i | 0 <= i < k ensures Advance(p.nextId, i) != id {
      AdvanceInjective(p.nextId, i, k);
    }
  }

  lemma AdvanceInjective(id: u16, a: nat, b: nat)
    requires id >= 1 && a < IDS && b < IDS
    ensures Advance(id, a) == Advance(id, b) <==> a == b
  {
  }

  /** A reconnecting machine that does not keep its id: the first two registrations of a pool get ids 1 and 2 even
      if they are of one machine. */
  lemma ReconnectGetsNewId(m: MachineId, limit: nat)
    requires limit > 0
    ensures var first := RegisterStep(Empty(limit), m, 0, 0, 0);
            var again := RegisterStep(first.0, m, 0, 0, 1);
            && first.1 == Registered(1) && first.0.byMachineId[m] == 1
            && again.1 == Registered(2)
  {
    var first := RegisterStep(Empty(limit), m, 0, 0, 0).0;
    AdvanceStep(1, 0);
    AdvanceStep(1, 1);
    assert Sweep({}, 1, 0, IDS) == Some(0);
    assert first.byMachineId == map[m := 1] && first.nextId == 2;
    assert Kicked(first, m).byShortId == map[];
    assert Sweep({}, 2, 0, IDS) == Some(0);
    assert Advance(2, 0) == 2;
  }
}
