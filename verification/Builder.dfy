/** The priority frame packer: an in-place stable insertion sort, then packing that skips what does not fit. */
module Builder {
  import opened Bytes
  import opened Outcomes
  import opened Commands
  import opened Codec
  import opened Folds
  import opened Sorting

  datatype Priority = Emergency | Motion | Expression | BestEffort

  function Rank(p: Priority): nat {
    match p
    case Emergency => 0
    case Motion => 1
    case Expression => 2
    case BestEffort => 3
  }

  /** A queued command. The ticket is the number of pushes before it; no operation looks at it. */
  datatype Entry = Entry(priority: Priority, command: Command, ticket: nat)

  /** `heapless::Vec<(Priority, Command), 32>`. */
  type EntryVec = s: seq<Entry> | |s| <= MAX_COMMANDS_PER_FRAME

  function MoreUrgent(a: Entry, b: Entry): bool {
    Rank(a.priority) < Rank(b.priority)
  }

  lemma MoreUrgentOrders()
    ensures StrictWeak(MoreUrgent)
  {
  }

  function CommandsOf(es: seq<Entry>): (cs: seq<Command>)
    ensures |cs| == |es|
  {
    seq(|es|, i requires 0 <= i < |es| => es[i].command)
  }

  // ---------- What build and drain_all do ----------

  datatype Packing = Packing(taken: seq<Entry>, left: seq<Entry>)

  /** Packing `es` behind `count` commands in a frame that is `used` bytes long so far. */
  function Pack(es: seq<Entry>, used: nat, count: nat, maxLen: nat): Packing {
    if es == [] then Packing([], [])
    else
      var len := WireLen(es[0].command);
      if used + len <= maxLen && count < MAX_COMMANDS_PER_FRAME then
        var p := Pack(es[1..], used + len, count + 1, maxLen);
        Packing([es[0]] + p.taken, p.left)
      else
        var p := Pack(es[1..], used, count, maxLen);
        Packing(p.taken, [es[0]] + p.left)
  }

  function Packed(es: seq<Entry>, maxLen: nat): Packing {
    Pack(Sort(MoreUrgent, es), MIN_FRAME_LEN, 0, maxLen)
  }

  function FrameOf(seqNo: u16, batch: seq<Entry>): Frame
    requires |batch| <= MAX_COMMANDS_PER_FRAME
  {
    Frame(VERSION, seqNo, CommandsOf(batch))
  }

  lemma PackCons(e: Entry, rest: seq<Entry>, used: nat, count: nat, maxLen: nat)
    ensures var len := WireLen(e.command);
            var taken := Pack(rest, used + len, count + 1, maxLen);
            var skipped := Pack(rest, used, count, maxLen);
            Pack([e] + rest, used, count, maxLen) ==
              if used + len <= maxLen && count < MAX_COMMANDS_PER_FRAME then Packing([e] + taken.taken, taken.left)
              else Packing(skipped.taken, [e] + skipped.left)
  {
    hide WireLen;
    assert ([e] + rest)[1..] == rest;
  }

  lemma OneMore(e: Entry, a: seq<Entry>, b: seq<Entry>, rest: seq<Entry>)
    requires multiset(a) + multiset(b) == multiset(rest)
    ensures multiset([e] + a) + multiset(b) == multiset([e] + rest)
    ensures multiset(a) + multiset([e] + b) == multiset([e] + rest)
  {
  }

  lemma {:induction false} PackConserves(es: seq<Entry>, used: nat, count: nat, maxLen: nat)
    ensures var p := Pack(es, used, count, maxLen);
            && |p.taken| + |p.left| == |es|
            && multiset(p.taken) + multiset(p.left) == multiset(es)
  {
    hide WireLen;
    if es == [] {
      assert Pack(es, used, count, maxLen) == Packing([], []);
    } else {
      hide Pack;
      var e, rest := es[0], es[1..];
      var len := WireLen(e.command);
      assert es == [e] + rest;
      PackCons(e, rest, used, count, maxLen);
      var fits := used + len <= maxLen && count < MAX_COMMANDS_PER_FRAME;
      var u, c := if fits then used + len else used, if fits then count + 1 else count;
      PackConserves(rest, u, c, maxLen);
      var p := Pack(rest, u, c, maxLen);
      OneMore(e, p.taken, p.left, rest);
    }
  }

  lemma PackedConserves(es: seq<Entry>, maxLen: nat)
    ensures var p := Packed(es, maxLen);
            && |p.taken| + |p.left| == |es|
            && multiset(p.taken) + multiset(p.left) == multiset(es)
  {
    PackConserves(Sort(MoreUrgent, es), MIN_FRAME_LEN, 0, maxLen);
  }

  datatype Drained = Drained(batches: seq<seq<Entry>>, rest: seq<Entry>)

  function Drain(es: seq<Entry>, maxLen: nat): Drained
    decreases |es|
  {
    var p := Packed(es, maxLen);
    PackedConserves(es, maxLen);
    if p.taken == [] then Drained([], p.left)
    else
      var d := Drain(p.left, maxLen);
      Drained([p.taken] + d.batches, d.rest)
  }

  predicate Batched(batches: seq<seq<Entry>>) {
    forall i :: 0 <= i < |batches| ==> 0 < |batches[i]| <= MAX_COMMANDS_PER_FRAME
  }

  function Frames(seqNo: u16, batches: seq<seq<Entry>>): (fs: seq<Frame>)
    requires Batched(batches)
    ensures |fs| == |batches|
  {
    seq(|batches|, i requires 0 <= i < |batches| => FrameOf(seqNo, batches[i]))
  }

  // ---------- Packing refines the stable sort ----------

  /** The elements of `s` whose mark is `keep`. */
  function Select(s: seq<Entry>, mask: seq<bool>, keep: bool): seq<Entry>
    requires |mask| == |s|
  {
    if s == [] then []
    else (if mask[0] == keep then [s[0]] else []) + Select(s[1..], mask[1..], keep)
  }

  /** The frame and the leftovers are complementary subsequences of the packed sequence. */
  lemma {:induction false} PackSplits(es: seq<Entry>, used: nat, count: nat, maxLen: nat) returns (mask: seq<bool>)
    ensures |mask| == |es|
    ensures var p := Pack(es, used, count, maxLen);
            p.taken == Select(es, mask, true) && p.left == Select(es, mask, false)
  {
    if es == [] {
      mask := [];
    } else {
      var len := WireLen(es[0].command);
      var fits := used + len <= maxLen && count < MAX_COMMANDS_PER_FRAME;
      var more := if fits then Pack(es[1..], used + len, count + 1, maxLen) else Pack(es[1..], used, count, maxLen);
      var rest;
      if fits {
        rest := PackSplits(es[1..], used + len, count + 1, maxLen);
      } else {
        rest := PackSplits(es[1..], used, count, maxLen);
      }
      mask := [fits] + rest;
      assert mask[1..] == rest;
    }
  }

  lemma {:induction false} CommandsLenAppend(a: seq<Command>, b: seq<Command>)
    ensures CommandsLen(a + b) == CommandsLen(a) + CommandsLen(b)
  {
    if a == [] {
      assert a + b == b;
    } else {
      assert (a + b)[1..] == a[1..] + b;
      CommandsLenAppend(a[1..], b);
    }
  }

  lemma CommandsLenSnoc(cs: seq<Command>, c: Command)
    ensures CommandsLen(cs + [c]) == CommandsLen(cs) + WireLen(c)
  {
    CommandsLenAppend(cs, [c]);
    assert [c][1..] == [];
  }

  lemma CommandsLenCons(e: Entry, es: seq<Entry>)
    ensures CommandsLen(CommandsOf([e] + es)) == WireLen(e.command) + CommandsLen(CommandsOf(es))
  {
    assert CommandsOf([e] + es)[1..] == CommandsOf(es);
  }

  /** The frame respects the limits, and nothing left over would still fit into it. */
  lemma {:induction false} PackIsMaximal(es: seq<Entry>, used: nat, count: nat, maxLen: nat)
    requires count + |es| <= MAX_COMMANDS_PER_FRAME
    ensures var p := Pack(es, used, count, maxLen);
            var len := CommandsLen(CommandsOf(p.taken));
            && |p.taken| <= |es|
            && (p.taken != [] ==> used + len <= maxLen)
            && (forall e :: e in p.left ==> used + len + WireLen(e.command) > maxLen)
    decreases |es|
  {
    hide WireLen, CommandsOf;
    if es == [] {
      assert CommandsOf([]) == [];
    } else {
      var len := WireLen(es[0].command);
      if used + len <= maxLen && count < MAX_COMMANDS_PER_FRAME {
        PackIsMaximal(es[1..], used + len, count + 1, maxLen);
        var p := Pack(es[1..], used + len, count + 1, maxLen);
        CommandsLenCons(es[0], p.taken);
        if p.taken == [] {
          assert CommandsOf(p.taken) == [];
        }
      } else {
        PackIsMaximal(es[1..], used, count, maxLen);
      }
    }
  }

  /** What `build` takes and leaves: within the limits, complementary, and as much as fits. */
  lemma BuildRefinesStableSort(es: EntryVec, seqNo: u16, maxLen: nat) returns (mask: seq<bool>)
    ensures var s := Sort(MoreUrgent, es);
            var p := Packed(es, maxLen);
            && Sorted(MoreUrgent, s)
            && (forall e :: Class(MoreUrgent, s, e) == Class(MoreUrgent, es, e))
            && |mask| == |s|
            && p.taken == Select(s, mask, true) && p.left == Select(s, mask, false)
            && |p.taken| <= MAX_COMMANDS_PER_FRAME
            && (p.taken != [] ==> TotalLen(FrameOf(seqNo, p.taken)) <= maxLen)
            && (forall e :: e in p.left ==> TotalLen(FrameOf(seqNo, p.taken)) + WireLen(e.command) > maxLen)
  {
    hide Pack, WireLen, Class, Sorted;
    var s := Sort(MoreUrgent, es);
    MoreUrgentOrders();
    SortSorts(MoreUrgent, es);
    forall e ensures Class(MoreUrgent, s, e) == Class(MoreUrgent, es, e) {
      SortIsStable(MoreUrgent, es, e);
    }
    mask := PackSplits(s, MIN_FRAME_LEN, 0, maxLen);
    PackIsMaximal(s, MIN_FRAME_LEN, 0, maxLen);
  }

  // ---------- Draining ----------

  /** Packing takes nothing exactly when nothing fits. */
  lemma {:induction false} PackTakesNothingExactly(es: seq<Entry>, used: nat, count: nat, maxLen: nat)
    requires count + |es| <= MAX_COMMANDS_PER_FRAME
    ensures Pack(es, used, count, maxLen).taken == [] <==> forall e :: e in es ==> used + WireLen(e.command) > maxLen
    ensures Pack(es, used, count, maxLen).taken == [] ==> Pack(es, used, count, maxLen).left == es
    decreases |es|
  {
    hide WireLen;
    if es != [] {
      assert es[0] in es;
      PackTakesNothingExactly(es[1..], used, count, maxLen);
    }
  }

  lemma {:induction false} PackedFitAlone(es: seq<Entry>, used: nat, count: nat, maxLen: nat)
    ensures forall e :: e in Pack(es, used, count, maxLen).taken ==> used + WireLen(e.command) <= maxLen
  {
    hide WireLen;
    if es != [] {
      PackedFitAlone(es[1..], used + WireLen(es[0].command), count + 1, maxLen);
      PackedFitAlone(es[1..], used, count, maxLen);
    }
  }

  /** Draining loses and duplicates nothing and makes at most one frame per entry. What stays behind is
      exactly what does not fit an empty frame. */
  lemma {:induction false} DrainConserves(es: EntryVec, maxLen: nat)
    ensures var d := Drain(es, maxLen);
            && Batched(d.batches) && |d.batches| + |d.rest| <= |es|
            && multiset(Joined(d.batches)) + multiset(d.rest) == multiset(es)
            && (forall e :: e in Joined(d.batches) ==> MIN_FRAME_LEN + WireLen(e.command) <= maxLen)
            && (forall e :: e in d.rest ==> MIN_FRAME_LEN + WireLen(e.command) > maxLen)
    decreases |es|
  {
    hide Pack, WireLen, Sort;
    var p := Packed(es, maxLen);
    var s := Sort(MoreUrgent, es);
    PackedConserves(es, maxLen);
    PackedFitAlone(s, MIN_FRAME_LEN, 0, maxLen);
    if p.taken == [] {
      PackTakesNothingExactly(s, MIN_FRAME_LEN, 0, maxLen);
    } else {
      DrainConserves(p.left, maxLen);
      var d := Drain(p.left, maxLen);
      assert ([p.taken] + d.batches)[1..] == d.batches;
      assert Joined([p.taken] + d.batches) == p.taken + Joined(d.batches);
    }
  }

  lemma {:induction false} DrainFits(es: EntryVec, seqNo: u16, maxLen: nat)
    ensures var d := Drain(es, maxLen);
            && Batched(d.batches)
            && forall f :: f in Frames(seqNo, d.batches) ==> TotalLen(f) <= maxLen
    decreases |es|
  {
    hide Pack, WireLen, CommandsLen, Sort;
    DrainConserves(es, maxLen);
    var p := Packed(es, maxLen);
    PackedConserves(es, maxLen);
    if p.taken != [] {
      var s := Sort(MoreUrgent, es);
      PackIsMaximal(s, MIN_FRAME_LEN, 0, maxLen);
      DrainFits(p.left, seqNo, maxLen);
      var d := Drain(p.left, maxLen);
      assert Frames(seqNo, [p.taken] + d.batches) == [FrameOf(seqNo, p.taken)] + Frames(seqNo, d.batches);
    }
  }

  // ---------- The order of priorities ----------

  /** Emergency before motion before expression before best effort. */
  predicate NotLessUrgent(a: Priority, b: Priority) {
    && (b.Emergency? ==> a.Emergency?)
    && (b.Motion? ==> a.Emergency? || a.Motion?)
    && (b.Expression? ==> !a.BestEffort?)
  }

  lemma UrgencyOfPair(a: Entry, b: Entry)
    ensures !MoreUrgent(b, a) <==> NotLessUrgent(a.priority, b.priority)
  {
  }

  lemma TakenIndex(es: seq<Entry>, used: nat, count: nat, maxLen: nat, i: nat, j: nat) returns (k: nat, l: nat)
    requires i < j < |Pack(es, used, count, maxLen).taken|
    ensures k < l < |es|
    ensures es[k] == Pack(es, used, count, maxLen).taken[i] && es[l] == Pack(es, used, count, maxLen).taken[j]
    decreases |es|
  {
    hide WireLen;
    var e, rest := es[0], es[1..];
    var len := WireLen(e.command);
    if used + len <= maxLen && count < MAX_COMMANDS_PER_FRAME {
      var p := Pack(rest, used + len, count + 1, maxLen);
      if i == 0 {
        k := 0;
        l := OneIndex(rest, used + len, count + 1, maxLen, j - 1);
        l := l + 1;
      } else {
        k, l := TakenIndex(rest, used + len, count + 1, maxLen, i - 1, j - 1);
        k, l := k + 1, l + 1;
      }
    } else {
      k, l := TakenIndex(rest, used, count, maxLen, i, j);
      k, l := k + 1, l + 1;
    }
  }

  lemma OneIndex(es: seq<Entry>, used: nat, count: nat, maxLen: nat, i: nat) returns (k: nat)
    requires i < |Pack(es, used, count, maxLen).taken|
    ensures k < |es| && es[k] == Pack(es, used, count, maxLen).taken[i]
    decreases |es|
  {
    hide WireLen;
    var e, rest := es[0], es[1..];
    var len := WireLen(e.command);
    if used + len <= maxLen && count < MAX_COMMANDS_PER_FRAME {
      if i == 0 {
        k := 0;
      } else {
        k := OneIndex(rest, used + len, count + 1, maxLen, i - 1);
        k := k + 1;
      }
    } else {
      k := OneIndex(rest, used, count, maxLen, i);
      k := k + 1;
    }
  }

  /** Sorting puts emergencies first, then motion, then expression, then the rest. */
  lemma SortIsUrgent(es: seq<Entry>, i: nat, j: nat)
    requires i < j < |es|
    ensures var s := Sort(MoreUrgent, es); NotLessUrgent(s[i].priority, s[j].priority)
  {
    MoreUrgentOrders();
    SortSorts(MoreUrgent, es);
    UrgencyOfPair(Sort(MoreUrgent, es)[i], Sort(MoreUrgent, es)[j]);
    hide Sort, MoreUrgent;
  }

  /** So does a build of any queue. */
  lemma BuildIsUrgent(es: EntryVec, maxLen: nat, i: nat, j: nat)
    requires i < j < |Packed(es, maxLen).taken|
    ensures var out := Packed(es, maxLen).taken; NotLessUrgent(out[i].priority, out[j].priority)
  {
    hide Sort, Pack, NotLessUrgent;
    var k, l := TakenIndex(Sort(MoreUrgent, es), MIN_FRAME_LEN, 0, maxLen, i, j);
    SortIsUrgent(es, k, l);
  }

  /** Within one priority, a build of a queue that pushes and builds can reach keeps the order of arrival. */
  lemma BuildKeepsArrival(es: EntryVec, maxLen: nat, i: nat, j: nat)
    requires InOrder(es) && i < j < |Packed(es, maxLen).taken|
    requires Packed(es, maxLen).taken[i].priority == Packed(es, maxLen).taken[j].priority
    ensures Packed(es, maxLen).taken[i].ticket < Packed(es, maxLen).taken[j].ticket
  {
    hide Sort, Pack;
    var k, l := TakenIndex(Sort(MoreUrgent, es), MIN_FRAME_LEN, 0, maxLen, i, j);
    SortRanks(es);
  }

  /** A frame carries the sequence number asked for and the commands of its batch, in order. */
  lemma FrameCarries(seqNo: u16, batch: seq<Entry>)
    requires |batch| <= 32
    ensures var f := FrameOf(seqNo, batch);
            && f.version == 1 && f.seqNo == seqNo && |f.commands| == |batch|
            && forall i :: 0 <= i < |batch| ==> f.commands[i] == batch[i].command
  {
  }

  // ---------- Runs of push and build ----------

  datatype Queue = Queue(entries: EntryVec, arrivals: nat)

  datatype Op = Push(priority: Priority, command: Command) | Build(maxLen: nat)

  /** The new queue and what the operation sends out, most urgent first. */
  function StepQueue(q: Queue, op: Op): (r: (Queue, seq<Entry>))
    ensures |r.1| <= MAX_COMMANDS_PER_FRAME
  {
    match op
    case Push(priority, command) =>
      if |q.entries| < MAX_COMMANDS_PER_FRAME then
        (Queue(q.entries + [Entry(priority, command, q.arrivals)], q.arrivals + 1), [])
      else (q, [])
    case Build(maxLen) =>
      var p := Packed(q.entries, maxLen);
      PackedConserves(q.entries, maxLen);
      (Queue(p.left, q.arrivals), p.taken)
  }

  /** A push queues its command last, under its priority and with the next ticket; a builder of 32 entries refuses it. */
  lemma PushQueues(q: Queue, priority: Priority, command: Command)
    ensures var (q', out) := StepQueue(q, Push(priority, command));
            && out == []
            && (|q.entries| < 32 ==>
                  && q'.arrivals == q.arrivals + 1 && |q'.entries| == |q.entries| + 1
                  && q'.entries[..|q.entries|] == q.entries
                  && q'.entries[|q.entries|].priority == priority && q'.entries[|q.entries|].command == command
                  && q'.entries[|q.entries|].ticket == q.arrivals
                  && AcceptedBy(q, Push(priority, command)) == q'.entries[|q.entries|..])
            && (|q.entries| >= 32 ==> q' == q && AcceptedBy(q, Push(priority, command)) == [])
  {
  }

  function RunQueue(q: Queue, ops: seq<Op>): Queue
    decreases |ops|
  {
    if ops == [] then q else RunQueue(StepQueue(q, ops[0]).0, ops[1..])
  }

  /** Everything a run sends out, in order. */
  function Emitted(q: Queue, ops: seq<Op>): seq<Entry>
    decreases |ops|
  {
    if ops == [] then [] else StepQueue(q, ops[0]).1 + Emitted(StepQueue(q, ops[0]).0, ops[1..])
  }

  function AcceptedBy(q: Queue, op: Op): seq<Entry> {
    if op.Push? && |q.entries| < MAX_COMMANDS_PER_FRAME then [Entry(op.priority, op.command, q.arrivals)] else []
  }

  /** The entries a run accepts. */
  function Accepted(q: Queue, ops: seq<Op>): seq<Entry>
    decreases |ops|
  {
    if ops == [] then [] else AcceptedBy(q, ops[0]) + Accepted(StepQueue(q, ops[0]).0, ops[1..])
  }

  lemma StepConserves(q: Queue, op: Op)
    ensures var (q', out) := StepQueue(q, op);
            multiset(q.entries) + multiset(AcceptedBy(q, op)) == multiset(out) + multiset(q'.entries)
  {
    if op.Build? {
      hide Packed;
      PackedConserves(q.entries, op.maxLen);
    }
  }

  lemma Rebalance(queued: multiset<Entry>, added: multiset<Entry>, sent: multiset<Entry>, mid: multiset<Entry>,
                  more: multiset<Entry>, later: multiset<Entry>, end: multiset<Entry>)
    requires queued + added == sent + mid && mid + more == later + end
    ensures queued + (added + more) == (sent + later) + end
  {
    var a, b := queued + (added + more), (sent + later) + end;
    forall e: Entry ensures a[e] == b[e] {
      assert (queued + added)[e] == (sent + mid)[e] && (mid + more)[e] == (later + end)[e];
    }
    assert a == b;
  }

  /** Over any run, what was queued or accepted is what was sent or is still queued. */
  lemma {:induction false} RunConserves(q: Queue, ops: seq<Op>)
    ensures multiset(q.entries) + multiset(Accepted(q, ops)) ==
              multiset(Emitted(q, ops)) + multiset(RunQueue(q, ops).entries)
    decreases |ops|
  {
    hide StepQueue, AcceptedBy;
    if ops != [] {
      var (q', out) := StepQueue(q, ops[0]);
      RunConserves(q', ops[1..]);
      StepConserves(q, ops[0]);
      Rebalance(multiset(q.entries), multiset(AcceptedBy(q, ops[0])), multiset(out), multiset(q'.entries),
                multiset(Accepted(q', ops[1..])), multiset(Emitted(q', ops[1..])), multiset(RunQueue(q, ops).entries));
    }
  }

  /** Priority first, then order of arrival. */
  predicate Precedes(a: Entry, b: Entry) {
    Rank(a.priority) < Rank(b.priority) || (Rank(a.priority) == Rank(b.priority) && a.ticket < b.ticket)
  }

  /** Tickets are unique, and entries of one priority are queued in order of arrival. */
  ghost predicate InOrder(es: seq<Entry>) {
    forall i, j :: 0 <= i < j < |es| ==>
      es[i].ticket != es[j].ticket && (Rank(es[i].priority) == Rank(es[j].priority) ==> es[i].ticket < es[j].ticket)
  }

  ghost predicate Orderly(q: Queue) {
    InOrder(q.entries) && forall e :: e in q.entries ==> e.ticket < q.arrivals
  }

  ghost predicate Ranked(es: seq<Entry>) {
    forall i, j :: 0 <= i < j < |es| ==> es[i].ticket != es[j].ticket && Precedes(es[i], es[j])
  }

  lemma RankedSnoc(s: seq<Entry>, last: Entry)
    requires Ranked(s) && forall e :: e in s ==> e.ticket != last.ticket && Precedes(e, last)
    ensures Ranked(s + [last])
  {
  }

  lemma {:induction false} InsertRanks(s: seq<Entry>, x: Entry)
    requires Ranked(s)
    requires forall e :: e in s ==> e.ticket != x.ticket
    requires forall e :: e in s && Rank(e.priority) == Rank(x.priority) ==> e.ticket < x.ticket
    ensures Ranked(Insert(MoreUrgent, s, x))
  {
    hide Rank;
    if s != [] {
      var front, last := s[..|s| - 1], s[|s| - 1];
      if MoreUrgent(x, last) {
        InsertRanks(front, x);
        MembersOf(front, Insert(MoreUrgent, front, x), x);
        RankedSnoc(Insert(MoreUrgent, front, x), last);
      } else {
        forall e | e in s ensures Precedes(e, x) {
          assert e == last || Precedes(e, last);
        }
        RankedSnoc(s, x);
      }
    }
  }

  /** On queues that pushes and builds make, sorting orders by priority and then by arrival. */
  lemma {:induction false} SortRanks(es: seq<Entry>)
    requires InOrder(es)
    ensures Ranked(Sort(MoreUrgent, es))
  {
    if es != [] {
      var front := es[..|es| - 1];
      SortRanks(front);
      forall e | e in Sort(MoreUrgent, front) ensures e in front {
        assert e in multiset(Sort(MoreUrgent, front));
      }
      InsertRanks(Sort(MoreUrgent, front), es[|es| - 1]);
    }
  }

  lemma {:induction false} LeftIsRanked(es: seq<Entry>, used: nat, count: nat, maxLen: nat)
    requires Ranked(es)
    ensures Ranked(Pack(es, used, count, maxLen).left)
    ensures Ranked(Pack(es, used, count, maxLen).taken)
    ensures forall e :: e in Pack(es, used, count, maxLen).left ==> e in es
    ensures forall e :: e in Pack(es, used, count, maxLen).taken ==> e in es
  {
    hide WireLen, Precedes;
    if es != [] {
      forall e | e in es[1..] ensures es[0].ticket != e.ticket && Precedes(es[0], e) {
        var k :| 0 <= k < |es[1..]| && es[1..][k] == e;
        assert es[k + 1] == e;
      }
      LeftIsRanked(es[1..], used + WireLen(es[0].command), count + 1, maxLen);
      LeftIsRanked(es[1..], used, count, maxLen);
    }
  }

  lemma StepKeepsOrderly(q: Queue, op: Op)
    requires Orderly(q)
    ensures Orderly(StepQueue(q, op).0)
  {
    if op.Build? {
      hide Pack;
      var s := Sort(MoreUrgent, q.entries);
      SortRanks(q.entries);
      LeftIsRanked(s, MIN_FRAME_LEN, 0, op.maxLen);
      forall e | e in s ensures e in q.entries {
        assert e in multiset(s);
      }
    }
  }

  /** Every queue that pushes and builds can reach is orderly. */
  lemma {:induction false} RunKeepsOrderly(q: Queue, ops: seq<Op>)
    requires Orderly(q)
    ensures Orderly(RunQueue(q, ops))
    decreases |ops|
  {
    hide StepQueue;
    if ops != [] {
      StepKeepsOrderly(q, ops[0]);
      RunKeepsOrderly(StepQueue(q, ops[0]).0, ops[1..]);
    }
  }

  /** Where an entry that is no longer than `e` does not fit, neither does `e`, now or later. */
  lemma {:induction false} NoRoomLater(es: seq<Entry>, used: nat, count: nat, maxLen: nat, e: Entry)
    requires used + WireLen(e.command) > maxLen || count >= MAX_COMMANDS_PER_FRAME
    ensures e !in Pack(es, used, count, maxLen).taken
  {
    hide WireLen;
    if es != [] {
      NoRoomLater(es[1..], used, count, maxLen, e);
      NoRoomLater(es[1..], used + WireLen(es[0].command), count + 1, maxLen, e);
    }
  }

  /** Within one build: if the longer or equal `b` is taken, so is the preceding `a`. */
  lemma {:induction false} TakenTogether(es: seq<Entry>, used: nat, count: nat, maxLen: nat, a: Entry, b: Entry)
    requires Ranked(es) && a in es && b in es && Precedes(a, b)
    requires WireLen(a.command) <= WireLen(b.command)
    requires b in Pack(es, used, count, maxLen).taken
    ensures a in Pack(es, used, count, maxLen).taken
  {
    hide WireLen;
    var len := WireLen(es[0].command);
    if a == es[0] {
      if used + len > maxLen || count >= MAX_COMMANDS_PER_FRAME {
        NoRoomLater(es[1..], used, count, maxLen, b);
      }
    } else {
      var i :| 0 <= i < |es| && es[i] == a;
      assert Precedes(es[0], es[i]);
      assert b != es[0] && b in es[1..] && a in es[1..];
      if used + len <= maxLen && count < MAX_COMMANDS_PER_FRAME {
        TakenTogether(es[1..], used + len, count + 1, maxLen, a, b);
      } else {
        TakenTogether(es[1..], used, count, maxLen, a, b);
      }
    }
  }

  /** What one build does to a pair of queued entries. */
  lemma BuildKeepsPair(q: Queue, maxLen: nat, a: Entry, b: Entry)
    requires Orderly(q) && a in q.entries && b in q.entries && Precedes(a, b)
    requires WireLen(a.command) <= WireLen(b.command)
    ensures var (q', out) := StepQueue(q, Build(maxLen));
            && Ranked(out)
            && (a in out || a in q'.entries) && (b in out || b in q'.entries)
            && (b in out ==> a in out)
  {
    hide Pack, WireLen, Precedes;
    var s := Sort(MoreUrgent, q.entries);
    SortRanks(q.entries);
    assert a in multiset(s) && b in multiset(s);
    LeftIsRanked(s, MIN_FRAME_LEN, 0, maxLen);
    PackedConserves(q.entries, maxLen);
    var p := Packed(q.entries, maxLen);
    assert a in multiset(p.taken) + multiset(p.left) && b in multiset(p.taken) + multiset(p.left);
    if b in p.taken {
      TakenTogether(s, MIN_FRAME_LEN, 0, maxLen, a, b);
    }
  }

  lemma RankedIndex(es: seq<Entry>, a: Entry, j: nat) returns (i: nat)
    requires Ranked(es) && a in es && j < |es| && Precedes(a, es[j])
    ensures i < j && es[i] == a
  {
    i :| 0 <= i < |es| && es[i] == a;
  }

  /** No overtaking. Whatever pushes and builds follow, an entry that precedes a queued entry of no smaller size
      is sent before it. */
  lemma {:induction false} NoOvertaking(q: Queue, ops: seq<Op>, a: Entry, b: Entry, j: nat) returns (i: nat)
    requires Orderly(q) && a in q.entries && b in q.entries && Precedes(a, b)
    requires WireLen(a.command) <= WireLen(b.command)
    requires j < |Emitted(q, ops)| && Emitted(q, ops)[j] == b
    ensures i < j && Emitted(q, ops)[i] == a
    decreases |ops|
  {
    hide Packed, WireLen, Precedes, Ranked, Orderly;
    var (q', out) := StepQueue(q, ops[0]);
    StepKeepsOrderly(q, ops[0]);
    if ops[0].Push? {
      i := NoOvertaking(q', ops[1..], a, b, j);
    } else {
      BuildKeepsPair(q, ops[0].maxLen, a, b);
      if j < |out| {
        i := RankedIndex(out, a, j);
      } else if a in out {
        i :| 0 <= i < |out| && out[i] == a;
      } else {
        i := NoOvertaking(q', ops[1..], a, b, j - |out|);
        i := i + |out|;
      }
    }
  }

  // ---------- From the queue to the wire and back ----------

  /** Draining into frames of at most 1024 bytes, encoding them one after another and splitting the bytes again
      gives back exactly the drained commands, in the order they were sent. */
  lemma DrainedStreamSplits(es: EntryVec, seqNo: u16, maxLen: nat)
    requires maxLen <= MAX_FRAME_LEN && PayloadsFit(CommandsOf(es))
    ensures var d := Drain(es, maxLen);
            && Batched(d.batches)
            && SplitStream(Stream(Frames(seqNo, d.batches))) == Split(Frames(seqNo, d.batches), [], Incomplete)
  {
    hide PayloadLen, SplitStream, Encoded, Drain, Stream;
    var d := Drain(es, maxLen);
    DrainConserves(es, maxLen);
    DrainFits(es, seqNo, maxLen);
    var fs := Frames(seqNo, d.batches);
    forall i | 0 <= i < |fs| ensures TotalLen(fs[i]) <= MAX_FRAME_LEN && Faithful(fs[i]) {
      assert fs[i] in fs;
      BatchPayloads(es, d, i);
    }
    var ack := Frame(VERSION, 0, []);
    SelfDelimiting(fs, ack, 0);
    assert Encoded(ack)[..0] == [] && Stream(fs) + [] == Stream(fs);
  }

  lemma {:induction false} InJoined(batches: seq<seq<Entry>>, i: nat, e: Entry)
    requires i < |batches| && e in batches[i]
    ensures e in Joined(batches)
  {
    if i > 0 {
      InJoined(batches[1..], i - 1, e);
    }
  }

  lemma BatchPayloads(es: EntryVec, d: Drained, i: nat)
    requires PayloadsFit(CommandsOf(es)) && i < |d.batches|
    requires multiset(Joined(d.batches)) + multiset(d.rest) == multiset(es)
    ensures PayloadsFit(CommandsOf(d.batches[i]))
  {
    hide PayloadLen;
    forall k | 0 <= k < |d.batches[i]| ensures PayloadLen(d.batches[i][k].command) <= MAX_PAYLOAD_LEN {
      var e := d.batches[i][k];
      InJoined(d.batches, i, e);
      assert e in multiset(Joined(d.batches));
      assert e in multiset(es);
      var m :| 0 <= m < |es| && es[m] == e;
      assert CommandsOf(es)[m] == e.command;
    }
  }
}
