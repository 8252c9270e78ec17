/** The frame builder as an object: every method does what the packer's functions say. */
module FrameBuilder {
  import opened Bytes
  import opened Outcomes
  import opened Commands
  import opened Codec
  import opened Sorting
  import opened Builder

  lemma SortOne(s: seq<Entry>)
    requires s != []
    ensures Sort(MoreUrgent, s[..1]) + s[1..] == s
  {
    assert s[..1] == [s[0]] && s[..1][..0] == [];
    assert Sort(MoreUrgent, s[..1][..0]) == [];
    assert Sort(MoreUrgent, s[..1]) == [s[0]];
  }

  lemma SortSnoc(s: seq<Entry>, i: nat)
    requires i < |s|
    ensures Sort(MoreUrgent, s[..i + 1]) == Insert(MoreUrgent, Sort(MoreUrgent, s[..i]), s[i])
    ensures (Sort(MoreUrgent, s[..i]) + s[i..])[i + 1..] == s[i + 1..]
  {
    assert s[..i + 1][..i] == s[..i];
  }

  /** `x` has moved left to `j` among the sorted `done`, and belongs there or further left. */
  ghost predicate Moved(s: seq<Entry>, done: seq<Entry>, x: Entry, rest: seq<Entry>, j: nat) {
    && j <= |done|
    && s == done[..j] + ([x] + (done[j..] + rest))
    && Insert(MoreUrgent, done, x) == Insert(MoreUrgent, done[..j], x) + done[j..]
  }

  lemma MoveStarts(s: seq<Entry>, done: seq<Entry>, x: Entry, rest: seq<Entry>)
    requires s == done + [x] + rest
    ensures Moved(s, done, x, rest, |done|)
  {
    hide Insert;
    assert done[..|done|] == done && done[|done|..] == [];
  }

  lemma MoveContinues(s: seq<Entry>, done: seq<Entry>, x: Entry, rest: seq<Entry>, j: nat)
    requires Moved(s, done, x, rest, j) && 0 < j < |s|
    requires MoreUrgent(s[j], s[j - 1])
    ensures Moved(s[j - 1 := s[j]][j := s[j - 1]], done, x, rest, j - 1)
  {
    assert s[j] == x && s[j - 1] == done[j - 1];
    assert done[..j][..j - 1] == done[..j - 1];
    hide Insert, MoreUrgent;
    assert done[j - 1..] == [done[j - 1]] + done[j..];
    assert done[..j] == done[..j - 1] + [done[j - 1]];
  }

  lemma MoveEnds(s: seq<Entry>, done: seq<Entry>, x: Entry, rest: seq<Entry>, j: nat)
    requires Moved(s, done, x, rest, j) && j < |s| && (j > 0 ==> !MoreUrgent(s[j], s[j - 1]))
    ensures s == Insert(MoreUrgent, done, x) + rest
  {
    assert s[j] == x && (j > 0 ==> s[j - 1] == done[j - 1]);
    assert Insert(MoreUrgent, done[..j], x) == done[..j] + [x];
  }

  function Sent(seqNo: u16, taken: seq<Entry>): Option<Frame>
    requires |taken| <= MAX_COMMANDS_PER_FRAME
  {
    if taken == [] then None else Some(FrameOf(seqNo, taken))
  }

  lemma BuildStep(q: Queue, maxLen: nat)
    ensures var p := Packed(q.entries, maxLen);
            StepQueue(q, Builder.Build(maxLen)) == (Queue(p.left, q.arrivals), p.taken) && |p.left| <= |q.entries|
  {
    PackedConserves(q.entries, maxLen);
  }

  lemma NothingQueued(maxLen: nat)
    ensures Packed([], maxLen) == Packing([], [])
  {
  }

  /** What is left to drain once the first `k` batches are out. */
  ghost predicate Remaining(d: Drained, k: nat, es: seq<Entry>, maxLen: nat) {
    k <= |d.batches| && Drain(es, maxLen) == Drained(d.batches[k..], d.rest)
  }

  lemma DrainStarts(es: seq<Entry>, maxLen: nat)
    ensures Remaining(Drain(es, maxLen), 0, es, maxLen)
  {
    var d := Drain(es, maxLen);
    assert d.batches[0..] == d.batches;
  }

  lemma DrainStep(d: Drained, k: nat, es: seq<Entry>, maxLen: nat)
    requires Remaining(d, k, es, maxLen)
    ensures var p := Packed(es, maxLen);
            if p.taken == [] then k == |d.batches| && p.left == d.rest
            else k < |d.batches| && d.batches[k] == p.taken && Remaining(d, k + 1, p.left, maxLen)
  {
    hide Packed;
    var p := Packed(es, maxLen);
    if p.taken != [] {
      assert d.batches[k..][1..] == d.batches[k + 1..];
      var more := Drain(p.left, maxLen);
      assert ([p.taken] + more.batches)[1..] == more.batches;
    }
  }

  lemma FramesSnoc(seqNo: u16, batches: seq<seq<Entry>>, k: nat)
    requires Batched(batches) && k < |batches|
    ensures Frames(seqNo, batches)[..k + 1] == Frames(seqNo, batches)[..k] + [FrameOf(seqNo, batches[k])]
  {
  }

  /** `taken` and `remaining` are what the packing `p` of `all` does with the first `k` entries. */
  ghost predicate Halfway(p: Packing, all: seq<Entry>, k: nat, taken: seq<Entry>, remaining: seq<Entry>, maxLen: nat) {
    && k <= |all|
    && var more := Pack(all[k..], MIN_FRAME_LEN + CommandsLen(CommandsOf(taken)), |taken|, maxLen);
       p == Packing(taken + more.taken, remaining + more.left)
  }

  lemma HalfwayStarts(all: seq<Entry>, maxLen: nat)
    ensures Halfway(Pack(all, MIN_FRAME_LEN, 0, maxLen), all, 0, [], [], maxLen)
  {
    assert all[0..] == all && CommandsOf([]) == [];
  }

  lemma HalfwayStep(p: Packing, all: seq<Entry>, k: nat, taken: seq<Entry>, remaining: seq<Entry>, maxLen: nat)
    requires Halfway(p, all, k, taken, remaining, maxLen) && k < |all|
    ensures var e := all[k];
            var fits := MIN_FRAME_LEN + CommandsLen(CommandsOf(taken)) + WireLen(e.command) <= maxLen
                        && |taken| < MAX_COMMANDS_PER_FRAME;
            && (fits ==> Halfway(p, all, k + 1, taken + [e], remaining, maxLen))
            && (!fits ==> Halfway(p, all, k + 1, taken, remaining + [e], maxLen))
  {
    hide WireLen;
    var e := all[k];
    assert all[k..][0] == e && all[k..][1..] == all[k + 1..];
    assert CommandsOf(taken + [e]) == CommandsOf(taken) + [e.command];
    CommandsLenSnoc(CommandsOf(taken), e.command);
    hide CommandsLen;
    var used := MIN_FRAME_LEN + CommandsLen(CommandsOf(taken));
    if used + WireLen(e.command) <= maxLen && |taken| < MAX_COMMANDS_PER_FRAME {
      var more := Pack(all[k + 1..], used + WireLen(e.command), |taken| + 1, maxLen);
      assert taken + ([e] + more.taken) == (taken + [e]) + more.taken;
    } else {
      var more := Pack(all[k + 1..], used, |taken|, maxLen);
      assert remaining + ([e] + more.left) == (remaining + [e]) + more.left;
    }
  }

  lemma HalfwayEnds(p: Packing, all: seq<Entry>, taken: seq<Entry>, remaining: seq<Entry>, maxLen: nat)
    requires Halfway(p, all, |all|, taken, remaining, maxLen)
    ensures p == Packing(taken, remaining)
  {
    assert all[|all|..] == [];
  }

  class FrameBuilder {
    var entries: EntryVec
    var arrivals: nat

    function State(): Queue
      reads this
    {
      Queue(entries, arrivals)
    }

    constructor ()
      ensures State() == Queue([], 0)
    {
      entries := [];
      arrivals := 0;
    }

    /** A full builder hands the command back. */
    method Add(priority: Priority, command: Command) returns (back: Option<Command>)
      modifies this
      ensures State() == StepQueue(old(State()), Push(priority, command)).0
      ensures back == if |old(entries)| < 32 then None else Some(command)
      ensures entries == old(entries) + if back.None? then [Entry(priority, command, old(arrivals))] else []
    {
      if |entries| == MAX_COMMANDS_PER_FRAME {
        return Some(command);
      }
      entries := entries + [Entry(priority, command, arrivals)];
      arrivals := arrivals + 1;
      back := None;
    }

    /** Insertion sort by adjacent swaps. */
    method SortEntries()
      requires entries != []
      modifies this`entries
      ensures entries == Sort(MoreUrgent, old(entries))
    {
      hide Sort, Insert;
      ghost var was := entries;
      var n := |entries|;
      SortOne(was);
      for i := 1 to n
        invariant |entries| == n
        invariant entries == Sort(MoreUrgent, was[..i]) + was[i..]
      {
        ghost var done := Sort(MoreUrgent, was[..i]);
        SwapDown(i, done);
        SortSnoc(was, i);
      }
      assert was[..n] == was && was[n..] == [];
    }

    /** The inner loop: the entry at `i` moves left past every less urgent one. */
    method SwapDown(i: nat, ghost done: seq<Entry>)
      requires i < |entries| && |done| == i && entries[..i] == done
      modifies this`entries
      ensures entries == Insert(MoreUrgent, done, old(entries[i])) + old(entries[i + 1..])
    {
      hide Moved;
      ghost var x, rest := entries[i], entries[i + 1..];
      var j := i;
      MoveStarts(entries, done, x, rest);
      while j > 0 && Rank(entries[j - 1].priority) > Rank(entries[j].priority)
        invariant 0 <= j <= i < |entries|
        invariant Moved(entries, done, x, rest, j)
      {
        MoveContinues(entries, done, x, rest, j);
        entries := entries[j - 1 := entries[j]][j := entries[j - 1]];
        j := j - 1;
      }
      MoveEnds(entries, done, x, rest, j);
    }

    method Build(seqNo: u16, maxLen: nat) returns (r: Option<Frame>)
      modifies this
      ensures State() == StepQueue(old(State()), Builder.Build(maxLen)).0
      ensures r == Sent(seqNo, StepQueue(old(State()), Builder.Build(maxLen)).1)
      ensures r.Some? ==> r.value.version == 1 && r.value.seqNo == seqNo && 0 < |r.value.commands| <= 32
    {
      hide Halfway, Pack, WireLen, CommandsLen, Sort;
      BuildStep(State(), maxLen);
      if entries == [] {
        NothingQueued(maxLen);
        return None;
      }
      ghost var p := Packed(entries, maxLen);
      SortEntries();
      var frame := Frame(VERSION, seqNo, []);
      var remaining: EntryVec := [];
      var all := entries;
      entries := [];
      ghost var taken: seq<Entry> := [];
      HalfwayStarts(all, maxLen);
      for k := 0 to |all|
        invariant arrivals == old(arrivals)
        invariant |remaining| + |taken| == k
        invariant frame == Frame(VERSION, seqNo, CommandsOf(taken))
        invariant Halfway(p, all, k, taken, remaining, maxLen)
      {
        var e := all[k];
        HalfwayStep(p, all, k, taken, remaining, maxLen);
        if TotalLen(frame) + WireLen(e.command) <= maxLen && |frame.commands| < 32 {
          if |frame.commands| < MAX_COMMANDS_PER_FRAME {
            frame := frame.(commands := frame.commands + [e.command]);
          }
          taken := taken + [e];
        } else {
          if |remaining| < MAX_COMMANDS_PER_FRAME {
            remaining := remaining + [e];
          }
        }
      }
      HalfwayEnds(p, all, taken, remaining, maxLen);
      entries := remaining;
      r := if frame.commands == [] then None else Some(frame);
    }

    /** Every frame that `Build` yields until it yields none; nothing is lost on the way. */
    method DrainAll(seqNo: u16, maxLen: nat) returns (frames: seq<Frame>)
      modifies this
      ensures arrivals == old(arrivals)
      ensures var d := Drain(old(entries), maxLen);
              Batched(d.batches) && frames == Frames(seqNo, d.batches) && entries == d.rest
    {
      hide Drain, Packed, StepQueue, FrameOf, Frames, Remaining;
      ghost var d := Drain(entries, maxLen);
      DrainConserves(entries, maxLen);
      frames := [];
      BuildStep(State(), maxLen);
      DrainStarts(entries, maxLen);
      DrainStep(d, 0, entries, maxLen);
      var next := Build(seqNo, maxLen);
      ghost var k := 0;
      while next.Some?
        invariant arrivals == old(arrivals)
        invariant k == |frames| <= |d.batches|
        invariant frames == Frames(seqNo, d.batches)[..k]
        invariant next.None? ==> k == |d.batches| && entries == d.rest
        invariant next.Some? ==> k < |d.batches| && next.value == FrameOf(seqNo, d.batches[k])
        invariant next.Some? ==> Remaining(d, k + 1, entries, maxLen)
        decreases |d.batches| - k
      {
        FramesSnoc(seqNo, d.batches, k);
        if |frames| < 32 {
          frames := frames + [next.value];
        }
        k := k + 1;
        BuildStep(State(), maxLen);
        DrainStep(d, k, entries, maxLen);
        next := Build(seqNo, maxLen);
      }
    }
  }
}
