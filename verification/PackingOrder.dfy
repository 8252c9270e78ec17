/** When the packer does what its documentation says: stop at the first misfit, and drain in priority order. */
module PackingOrder {
  import opened Outcomes
  import opened Commands
  import opened Codec
  import opened Folds
  import opened Sorting
  import opened Builder

  /** The wire length of a frame of these entries. */
  function FrameLen(es: seq<Entry>): nat {
    MIN_FRAME_LEN + CommandsLen(CommandsOf(es))
  }

  /** How many entries go in before the first one that does not fit. */
  function Prefix(es: seq<Entry>, used: nat, maxLen: nat): (n: nat)
    ensures n <= |es|
  {
    if es == [] || used + WireLen(es[0].command) > maxLen then 0
    else 1 + Prefix(es[1..], used + WireLen(es[0].command), maxLen)
  }

  /** `n` is the length of the longest prefix that fits a frame behind `used` bytes. */
  lemma {:induction false} PrefixIsLongest(es: seq<Entry>, used: nat, maxLen: nat)
    ensures var n := Prefix(es, used, maxLen);
            && (n > 0 ==> used + CommandsLen(CommandsOf(es[..n])) <= maxLen)
            && (n < |es| ==> used + CommandsLen(CommandsOf(es[..n])) + WireLen(es[n].command) > maxLen)
    decreases |es|
  {
    hide WireLen, CommandsLen, CommandsOf;
    var n := Prefix(es, used, maxLen);
    assert es[..0] == [];
    NoCommands();
    if n > 0 {
      PrefixIsLongest(es[1..], used + WireLen(es[0].command), maxLen);
      PrefixCons(es, n);
      if n == 1 {
        assert es[1..][..0] == [];
      }
    }
  }

  lemma NoCommands()
    ensures CommandsLen(CommandsOf([])) == 0
  {
  }

  lemma PrefixCons(es: seq<Entry>, n: nat)
    requires 0 < n <= |es|
    ensures es[..n] == [es[0]] + es[1..][..n - 1]
    ensures CommandsLen(CommandsOf(es[..n])) == WireLen(es[0].command) + CommandsLen(CommandsOf(es[1..][..n - 1]))
  {
    assert es[..n] == [es[0]] + es[1..][..n - 1];
    CommandsLenCons(es[0], es[1..][..n - 1]);
  }

  /** Packing is the longest fitting prefix, and then whatever fits behind it. */
  lemma {:induction false} PackPrefix(es: seq<Entry>, used: nat, count: nat, maxLen: nat)
    requires count + |es| <= MAX_COMMANDS_PER_FRAME
    ensures var n := Prefix(es, used, maxLen);
            var more := Pack(es[n..], used + CommandsLen(CommandsOf(es[..n])), count + n, maxLen);
            Pack(es, used, count, maxLen) == Packing(es[..n] + more.taken, more.left)
    decreases |es|
  {
    hide WireLen, CommandsLen, CommandsOf, Pack;
    var n := Prefix(es, used, maxLen);
    if n == 0 {
      NoCommands();
      assert es[..0] == [] && es[0..] == es;
      assert [] + Pack(es, used, count, maxLen).taken == Pack(es, used, count, maxLen).taken;
    } else {
      var len := WireLen(es[0].command);
      assert es == [es[0]] + es[1..];
      PackCons(es[0], es[1..], used, count, maxLen);
      PackPrefix(es[1..], used + len, count + 1, maxLen);
      PrefixCons(es, n);
      assert es[1..][n - 1..] == es[n..];
      var more := Pack(es[n..], used + CommandsLen(CommandsOf(es[..n])), count + n, maxLen);
      assert es[..n] + more.taken == [es[0]] + (es[1..][..n - 1] + more.taken);
    }
  }

  /** No entry behind the longest fitting prefix would still fit. */
  predicate NothingFitsBehind(s: seq<Entry>, maxLen: nat) {
    var n := Prefix(s, MIN_FRAME_LEN, maxLen);
    forall i :: n <= i < |s| ==> FrameLen(s[..n]) + WireLen(s[i].command) > maxLen
  }

  lemma SuffixMembers(s: seq<Entry>, n: nat, e: Entry)
    requires n <= |s|
    ensures e in s[n..] <==> exists i :: n <= i < |s| && s[i] == e
  {
    if e in s[n..] {
      var k :| 0 <= k < |s[n..]| && s[n..][k] == e;
      assert s[n + k] == e;
    }
    forall i | n <= i < |s| && s[i] == e ensures e in s[n..] {
      assert s[n..][i - n] == e;
    }
  }

  /** For every sorted queue: packing stops at the first misfit if and only if nothing fits behind the longest fitting
      prefix. */
  lemma StopsAtMisfitExactly(s: EntryVec, maxLen: nat)
    ensures var n := Prefix(s, MIN_FRAME_LEN, maxLen);
            var p := Pack(s, MIN_FRAME_LEN, 0, maxLen);
            && (p.taken == s[..n] <==> NothingFitsBehind(s, maxLen))
            && (p.taken == s[..n] ==> p.left == s[n..])
            && s[..n] <= p.taken
            && (forall e :: e in p.taken[n..] ==> e in s[n..] && FrameLen(s[..n]) + WireLen(e.command) <= maxLen)
  {
    hide WireLen, CommandsLen, CommandsOf, Pack;
    var n := Prefix(s, MIN_FRAME_LEN, maxLen);
    PackPrefix(s, MIN_FRAME_LEN, 0, maxLen);
    var more := Pack(s[n..], FrameLen(s[..n]), n, maxLen);
    PackTakesNothingExactly(s[n..], FrameLen(s[..n]), n, maxLen);
    PackedFitAlone(s[n..], FrameLen(s[..n]), n, maxLen);
    PackConserves(s[n..], FrameLen(s[..n]), n, maxLen);
    var p := Pack(s, MIN_FRAME_LEN, 0, maxLen);
    assert p.taken[n..] == more.taken;
    forall e | e in more.taken ensures e in s[n..] {
      assert e in multiset(more.taken) + multiset(more.left);
      assert e in multiset(s[n..]);
    }
    if p.taken == s[..n] {
      assert |p.taken| == |s[..n]| + |more.taken|;
    }
    if more.taken == [] {
      forall i | n <= i < |s| ensures FrameLen(s[..n]) + WireLen(s[i].command) > maxLen {
        SuffixMembers(s, n, s[i]);
      }
    } else {
      var e := more.taken[0];
      SuffixMembers(s, n, e);
    }
  }

  /** The same for a build of any queue. */
  lemma BuildStopsAtMisfitExactly(es: EntryVec, maxLen: nat)
    ensures var s := Sort(MoreUrgent, es);
            var n := Prefix(s, MIN_FRAME_LEN, maxLen);
            Packed(es, maxLen) == Packing(s[..n], s[n..]) <==> NothingFitsBehind(s, maxLen)
  {
    StopsAtMisfitExactly(Sort(MoreUrgent, es), maxLen);
  }

  // ---------- Overtaking within one build ----------

  /** Some entry is taken although one that precedes it is left. */
  ghost predicate Overtakes(p: Packing) {
    exists a, b :: a in p.left && b in p.taken && Precedes(a, b)
  }

  lemma RankedApart(s: seq<Entry>, i: nat, j: nat)
    requires Ranked(s) && i < |s| && j < |s|
    ensures Precedes(s[i], s[j]) <==> i < j
    ensures s[i] == s[j] <==> i == j
  {
  }

  lemma FirstMisfitIsNotTaken(s: EntryVec, maxLen: nat)
    requires Ranked(s) && Prefix(s, MIN_FRAME_LEN, maxLen) < |s|
    ensures s[Prefix(s, MIN_FRAME_LEN, maxLen)] !in Pack(s, MIN_FRAME_LEN, 0, maxLen).taken
  {
    hide WireLen, FrameLen, Pack, Prefix, Precedes, NothingFitsBehind;
    var n := Prefix(s, MIN_FRAME_LEN, maxLen);
    var p := Pack(s, MIN_FRAME_LEN, 0, maxLen);
    StopsAtMisfitExactly(s, maxLen);
    MisfitLen(s, maxLen);
    forall i | 0 <= i < n ensures s[..n][i] != s[n] {
      RankedApart(s, i, n);
    }
    hide Ranked;
    assert s[n] !in p.taken[n..] && p.taken == s[..n] + p.taken[n..];
  }

  lemma MisfitLen(s: seq<Entry>, maxLen: nat)
    requires Prefix(s, MIN_FRAME_LEN, maxLen) < |s|
    ensures var n := Prefix(s, MIN_FRAME_LEN, maxLen); FrameLen(s[..n]) + WireLen(s[n].command) > maxLen
  {
    hide WireLen, CommandsLen, CommandsOf, Prefix;
    PrefixIsLongest(s, MIN_FRAME_LEN, maxLen);
  }

  lemma FirstMisfitIsLeft(s: EntryVec, maxLen: nat)
    requires Ranked(s) && Prefix(s, MIN_FRAME_LEN, maxLen) < |s|
    ensures s[Prefix(s, MIN_FRAME_LEN, maxLen)] in Pack(s, MIN_FRAME_LEN, 0, maxLen).left
  {
    hide Pack, Prefix, Ranked;
    var e := s[Prefix(s, MIN_FRAME_LEN, maxLen)];
    var p := Pack(s, MIN_FRAME_LEN, 0, maxLen);
    FirstMisfitIsNotTaken(s, maxLen);
    PackConserves(s, MIN_FRAME_LEN, 0, maxLen);
    assert e in multiset(s);
    assert e in multiset(p.taken) + multiset(p.left);
  }

  /** A build of entries in order lets some entry overtake another if and only if something behind the longest
      fitting prefix would still fit. */
  lemma OvertakesExactly(s: EntryVec, maxLen: nat)
    requires Ranked(s)
    ensures Overtakes(Pack(s, MIN_FRAME_LEN, 0, maxLen)) <==> !NothingFitsBehind(s, maxLen)
  {
    hide WireLen, CommandsLen, CommandsOf, Pack, Prefix, Precedes, Ranked, NothingFitsBehind;
    var n := Prefix(s, MIN_FRAME_LEN, maxLen);
    var p := Pack(s, MIN_FRAME_LEN, 0, maxLen);
    StopsAtMisfitExactly(s, maxLen);
    if NothingFitsBehind(s, maxLen) {
      forall a, b | a in p.left && b in p.taken ensures !Precedes(a, b) {
        SuffixMembers(s, n, a);
        var i: nat :| n <= i < |s| && s[i] == a;
        var j: nat :| j < |s[..n]| && s[..n][j] == b;
        RankedApart(s, i, j);
      }
    } else {
      assert p.taken == s[..n] + p.taken[n..];
      var b := p.taken[n..][0];
      assert b in p.taken;
      SuffixMembers(s, n, b);
      var i: nat :| n <= i < |s| && s[i] == b;
      FirstMisfitIsLeft(s, maxLen);
      PrefixIsLongest(s, MIN_FRAME_LEN, maxLen);
      RankedApart(s, n, i);
    }
  }

  /** Overtaking in a build of any queue that pushes and builds can reach. */
  lemma OvertakingExactly(es: EntryVec, maxLen: nat)
    requires InOrder(es)
    ensures Overtakes(Packed(es, maxLen)) <==> !NothingFitsBehind(Sort(MoreUrgent, es), maxLen)
  {
    hide Pack, NothingFitsBehind, Overtakes;
    SortRanks(es);
    OvertakesExactly(Sort(MoreUrgent, es), maxLen);
  }

  // ---------- Draining in order ----------

  /** The entries that fit an empty frame. */
  function Fitting(s: seq<Entry>, maxLen: nat): (f: seq<Entry>)
    ensures |f| <= |s|
  {
    if s == [] then []
    else (if MIN_FRAME_LEN + WireLen(s[0].command) <= maxLen then [s[0]] else []) + Fitting(s[1..], maxLen)
  }

  lemma {:induction false} FittingMembers(s: seq<Entry>, maxLen: nat, e: Entry)
    ensures e in Fitting(s, maxLen) <==> e in s && MIN_FRAME_LEN + WireLen(e.command) <= maxLen
  {
    hide WireLen;
    if s != [] {
      FittingMembers(s[1..], maxLen, e);
    }
  }

  lemma {:induction false} FittingRanked(s: seq<Entry>, maxLen: nat)
    requires Ranked(s)
    ensures Ranked(Fitting(s, maxLen))
  {
    hide WireLen, Precedes;
    if s != [] {
      FittingRanked(s[1..], maxLen);
      forall e | e in Fitting(s[1..], maxLen) ensures s[0].ticket != e.ticket && Precedes(s[0], e) {
        FittingMembers(s[1..], maxLen, e);
        var k :| 0 <= k < |s[1..]| && s[1..][k] == e;
        assert s[k + 1] == e;
      }
    }
  }

  /** Entries that fit no frame do not influence the packing of the others. */
  lemma {:induction false} PackFitting(s: seq<Entry>, used: nat, count: nat, maxLen: nat)
    requires used >= MIN_FRAME_LEN && count + |s| <= MAX_COMMANDS_PER_FRAME
    ensures var p, q := Pack(s, used, count, maxLen), Pack(Fitting(s, maxLen), used, count, maxLen);
            p.taken == q.taken && Fitting(p.left, maxLen) == q.left
    decreases |s|
  {
    hide WireLen, Pack, Fitting;
    if s == [] {
      NothingFitting(used, count, maxLen);
    } else {
      var e, rest := s[0], s[1..];
      var len := WireLen(e.command);
      assert s == [e] + rest;
      FittingCons(e, rest, maxLen);
      PackCons(e, rest, used, count, maxLen);
      PackCons(e, Fitting(rest, maxLen), used, count, maxLen);
      if used + len <= maxLen {
        PackFitting(rest, used + len, count + 1, maxLen);
      } else {
        PackFitting(rest, used, count, maxLen);
        FittingCons(e, Pack(rest, used, count, maxLen).left, maxLen);
      }
    }
  }

  lemma NothingFitting(used: nat, count: nat, maxLen: nat)
    ensures Fitting([], maxLen) == [] && Pack([], used, count, maxLen) == Packing([], [])
  {
  }

  lemma FittingCons(e: Entry, rest: seq<Entry>, maxLen: nat)
    ensures Fitting([e] + rest, maxLen) ==
              if MIN_FRAME_LEN + WireLen(e.command) <= maxLen then [e] + Fitting(rest, maxLen)
              else Fitting(rest, maxLen)
  {
    hide WireLen;
    assert ([e] + rest)[1..] == rest;
  }

  /** Frame after frame, packing stops at the first misfit. */
  predicate StopsEachTime(f: seq<Entry>, maxLen: nat)
    decreases |f|
  {
    f == [] ||
    var n := Prefix(f, MIN_FRAME_LEN, maxLen);
    n > 0 && NothingFitsBehind(f, maxLen) && StopsEachTime(f[n..], maxLen)
  }

  lemma RankedIsSorted(s: seq<Entry>)
    requires Ranked(s)
    ensures Sort(MoreUrgent, s) == s
  {
    assert Sorted(MoreUrgent, s);
    SortIdempotent(MoreUrgent, s);
  }

  /** One step of draining entries in order, seen on those that fit alone. */
  lemma DrainUnfolds(s: EntryVec, maxLen: nat)
    requires Ranked(s)
    ensures var f := Fitting(s, maxLen);
            var q := Pack(f, MIN_FRAME_LEN, 0, maxLen);
            var left := Packed(s, maxLen).left;
            && Ranked(f) && |f| <= MAX_COMMANDS_PER_FRAME
            && (q.taken == [] <==> f == [])
            && (f == [] ==> Drain(s, maxLen).batches == [])
            && (f != [] ==>
                  && Ranked(left) && |left| < |s| && Fitting(left, maxLen) == q.left
                  && Drain(s, maxLen).batches == [q.taken] + Drain(left, maxLen).batches)
  {
    hide WireLen, Pack, Sort, Fitting, Ranked;
    var f := Fitting(s, maxLen);
    RankedIsSorted(s);
    PackFitting(s, MIN_FRAME_LEN, 0, maxLen);
    FittingRanked(s, maxLen);
    LeftIsRanked(s, MIN_FRAME_LEN, 0, maxLen);
    PackedConserves(s, maxLen);
    PackTakesNothingExactly(f, MIN_FRAME_LEN, 0, maxLen);
    if f != [] {
      assert f[0] in f;
      FittingMembers(s, maxLen, f[0]);
    }
  }

  lemma JoinedCons(batch: seq<Entry>, batches: seq<seq<Entry>>)
    ensures Joined([batch] + batches) == batch + Joined(batches)
  {
    assert ([batch] + batches)[1..] == batches;
  }

  /** What is drained later is what fits alone. */
  lemma DrainedMembers(s: EntryVec, maxLen: nat, e: Entry)
    ensures e in Joined(Drain(s, maxLen).batches) <==> e in Fitting(s, maxLen)
  {
    hide WireLen, Drain, Joined, Fitting;
    var d := Drain(s, maxLen);
    DrainConserves(s, maxLen);
    FittingMembers(s, maxLen, e);
    assert e in s <==> e in multiset(s);
    assert e in multiset(s) <==> e in multiset(Joined(d.batches)) || e in multiset(d.rest);
  }

  lemma RankedConcat(a: seq<Entry>, b: seq<Entry>)
    ensures Ranked(a + b) <==>
              Ranked(a) && Ranked(b) && forall x, y :: x in a && y in b ==> x.ticket != y.ticket && Precedes(x, y)
  {
    hide Precedes;
    var s := a + b;
    if Ranked(s) {
      forall i, j | 0 <= i < j < |a| ensures a[i].ticket != a[j].ticket && Precedes(a[i], a[j]) {
        assert s[i] == a[i] && s[j] == a[j];
      }
      forall i, j | 0 <= i < j < |b| ensures b[i].ticket != b[j].ticket && Precedes(b[i], b[j]) {
        assert s[|a| + i] == b[i] && s[|a| + j] == b[j];
      }
      forall x, y | x in a && y in b ensures x.ticket != y.ticket && Precedes(x, y) {
        var i :| 0 <= i < |a| && a[i] == x;
        var j :| 0 <= j < |b| && b[j] == y;
        assert s[i] == x && s[|a| + j] == y;
      }
    }
  }

  /** Draining entries in order yields them in order exactly when packing stops at the first misfit each time. */
  lemma {:induction false} RankedDrain(s: EntryVec, maxLen: nat)
    requires Ranked(s)
    ensures Ranked(Joined(Drain(s, maxLen).batches)) <==> StopsEachTime(Fitting(s, maxLen), maxLen)
    decreases |s|
  {
    hide WireLen, Pack, Packed, Drain, Fitting, Ranked, Precedes, Joined, NothingFitsBehind, Overtakes, Prefix;
    DrainUnfolds(s, maxLen);
    var f := Fitting(s, maxLen);
    if f == [] {
      NothingJoined();
    } else {
      var n := Prefix(f, MIN_FRAME_LEN, maxLen);
      var q := Pack(f, MIN_FRAME_LEN, 0, maxLen);
      var left := Packed(s, maxLen).left;
      var later := Joined(Drain(left, maxLen).batches);
      RankedDrain(left, maxLen);
      JoinedCons(q.taken, Drain(left, maxLen).batches);
      RankedConcat(q.taken, later);
      StopsAtMisfitExactly(f, maxLen);
      OvertakesExactly(f, maxLen);
      if NothingFitsBehind(f, maxLen) {
        assert f == f[..n] + f[n..];
        RankedConcat(f[..n], f[n..]);
        forall x, y | x in q.taken && y in later ensures x.ticket != y.ticket && Precedes(x, y) {
          DrainedMembers(left, maxLen, y);
        }
      } else {
        var a, b := OvertakenPair(q);
        DrainedMembers(left, maxLen, a);
        NotBoth(a, b);
      }
    }
  }

  lemma NothingJoined()
    ensures Ranked(Joined([]))
  {
  }

  lemma OvertakenPair(p: Packing) returns (a: Entry, b: Entry)
    requires Overtakes(p)
    ensures a in p.left && b in p.taken && Precedes(a, b)
  {
    a, b :| a in p.left && b in p.taken && Precedes(a, b);
  }

  lemma NotBoth(a: Entry, b: Entry)
    requires Precedes(a, b)
    ensures !Precedes(b, a)
  {
  }

  /** For every queue that pushes and builds can reach: draining sends the entries by priority and arrival if and only
      if, over those that fit alone, every frame stops at its first misfit. */
  lemma DrainsInOrderExactly(es: EntryVec, maxLen: nat)
    requires InOrder(es)
    ensures Ranked(Joined(Drain(es, maxLen).batches)) <==>
              StopsEachTime(Fitting(Sort(MoreUrgent, es), maxLen), maxLen)
  {
    hide Pack, Ranked, Fitting, StopsEachTime, Joined;
    var s := Sort(MoreUrgent, es);
    SortRanks(es);
    RankedIsSorted(s);
    RankedDrain(s, maxLen);
    assert Packed(es, maxLen) == Packed(s, maxLen);
  }

  // ---------- Priority alone ----------

  /** A walk over the lengths and ranks of one frame: `used` bytes are taken so far, and `misfit` is the rank of the
      first entry that did not fit. No entry of a higher rank fits behind it. */
  predicate KeepsUrgency(s: seq<Entry>, used: nat, misfit: Option<nat>, maxLen: nat) {
    s == [] ||
    var len, rank := WireLen(s[0].command), Rank(s[0].priority);
    if used + len <= maxLen
    then (misfit.Some? ==> rank <= misfit.value) && KeepsUrgency(s[1..], used + len, misfit, maxLen)
    else KeepsUrgency(s[1..], used, if misfit.Some? then misfit else Some(rank), maxLen)
  }

  /** The same walk over frame after frame: what did not fit is collected in `left` and walked next. */
  predicate UrgentFirst(s: seq<Entry>, used: nat, misfit: Option<nat>, left: seq<Entry>, maxLen: nat)
    decreases |s| + |left| + (if used > MIN_FRAME_LEN then 1 else 0), |s|
  {
    if s == [] then used <= MIN_FRAME_LEN || left == [] || UrgentFirst(left, MIN_FRAME_LEN, None, [], maxLen)
    else
      var len, rank := WireLen(s[0].command), Rank(s[0].priority);
      if used + len <= maxLen
      then (misfit.Some? ==> rank <= misfit.value) && UrgentFirst(s[1..], used + len, misfit, left, maxLen)
      else UrgentFirst(s[1..], used, if misfit.Some? then misfit else Some(rank), left + [s[0]], maxLen)
  }

  /** Some entry is taken although a more urgent one is left. */
  ghost predicate PassesUrgent(p: Packing) {
    exists a, b :: a in p.left && b in p.taken && MoreUrgent(a, b)
  }

  ghost predicate AtMost(es: seq<Entry>, misfit: Option<nat>) {
    misfit.Some? ==> forall e :: e in es ==> Rank(e.priority) <= misfit.value
  }

  ghost predicate AtLeast(es: seq<Entry>, misfit: Option<nat>) {
    misfit.Some? ==> forall e :: e in es ==> misfit.value <= Rank(e.priority)
  }

  lemma LeftMembers(es: seq<Entry>, used: nat, count: nat, maxLen: nat)
    ensures var p := Pack(es, used, count, maxLen); forall e :: e in p.taken || e in p.left ==> e in es
  {
    hide Pack;
    var p := Pack(es, used, count, maxLen);
    PackConserves(es, used, count, maxLen);
    forall e | e in p.taken || e in p.left ensures e in es {
      assert e in multiset(p.taken) + multiset(p.left);
      assert e in multiset(es);
    }
  }

  /** Taking a first entry that is no less urgent than the others passes nothing more. */
  lemma PassesTaking(e: Entry, p: Packing)
    requires forall a :: a in p.left ==> Rank(e.priority) <= Rank(a.priority)
    ensures PassesUrgent(Packing([e] + p.taken, p.left)) <==> PassesUrgent(p)
  {
    hide Rank;
    if PassesUrgent(p) {
      var a, b :| a in p.left && b in p.taken && MoreUrgent(a, b);
      assert b in [e] + p.taken;
    }
  }

  /** Leaving a first entry passes it exactly when something less urgent is taken. */
  lemma PassesLeaving(e: Entry, p: Packing)
    ensures PassesUrgent(Packing(p.taken, [e] + p.left)) <==>
              PassesUrgent(p) || !AtMost(p.taken, Some(Rank(e.priority)))
  {
    hide Rank;
    var q := Packing(p.taken, [e] + p.left);
    if PassesUrgent(p) {
      var a, b :| a in p.left && b in p.taken && MoreUrgent(a, b);
      assert a in q.left;
    }
    if !AtMost(p.taken, Some(Rank(e.priority))) {
      var b :| b in p.taken && Rank(b.priority) > Rank(e.priority);
      assert e in q.left && MoreUrgent(e, b);
    }
  }

  /** The walk through one frame finds out whether packing takes anything past something more urgent. */
  lemma {:induction false} WalkExactly(s: seq<Entry>, used: nat, count: nat, misfit: Option<nat>, maxLen: nat)
    requires Sorted(MoreUrgent, s) && AtLeast(s, misfit) && count + |s| <= MAX_COMMANDS_PER_FRAME
    ensures var p := Pack(s, used, count, maxLen);
            KeepsUrgency(s, used, misfit, maxLen) <==> AtMost(p.taken, misfit) && !PassesUrgent(p)
    decreases |s|
  {
    hide WireLen, Rank, Pack, PassesUrgent;
    if s == [] {
      NothingFitting(used, count, maxLen);
      NothingPassed();
    } else {
      var e, rest := s[0], s[1..];
      var len := WireLen(e.command);
      assert s == [e] + rest;
      RestIsLess(s);
      PackCons(e, rest, used, count, maxLen);
      if used + len <= maxLen {
        WalkExactly(rest, used + len, count + 1, misfit, maxLen);
        var p := Pack(rest, used + len, count + 1, maxLen);
        LeftMembers(rest, used + len, count + 1, maxLen);
        PassesTaking(e, p);
        assert AtMost([e] + p.taken, misfit) <==> AtMost([e], misfit) && AtMost(p.taken, misfit);
      } else {
        var first := if misfit.Some? then misfit else Some(Rank(e.priority));
        WalkExactly(rest, used, count, first, maxLen);
        var p := Pack(rest, used, count, maxLen);
        PassesLeaving(e, p);
      }
    }
  }

  lemma NothingPassed()
    ensures !PassesUrgent(Packing([], []))
  {
  }

  lemma RestIsLess(s: seq<Entry>)
    requires Sorted(MoreUrgent, s) && s != []
    ensures Sorted(MoreUrgent, s[1..])
    ensures forall e :: e in s[1..] ==> Rank(s[0].priority) <= Rank(e.priority)
  {
    hide Rank;
    forall e | e in s[1..] ensures Rank(s[0].priority) <= Rank(e.priority) {
      var k :| 0 <= k < |s[1..]| && s[1..][k] == e;
      assert s[k + 1] == e && !MoreUrgent(s[k + 1], s[0]);
    }
    forall i, j | 0 <= i < j < |s[1..]| ensures !MoreUrgent(s[1..][j], s[1..][i]) {
      assert s[1..][j] == s[j + 1] && s[1..][i] == s[i + 1];
    }
  }

  /** For every queue: a build takes an entry past a more urgent one if and only if the walk meets one. */
  lemma PassesUrgentExactly(es: EntryVec, maxLen: nat)
    ensures PassesUrgent(Packed(es, maxLen)) <==> !KeepsUrgency(Sort(MoreUrgent, es), MIN_FRAME_LEN, None, maxLen)
  {
    hide Pack, PassesUrgent, KeepsUrgency;
    MoreUrgentOrders();
    SortSorts(MoreUrgent, es);
    WalkExactly(Sort(MoreUrgent, es), MIN_FRAME_LEN, 0, None, maxLen);
  }

  /** The long walk is the walk through one frame, and then the long walk over what is left. */
  lemma {:induction false} WalkSplits(s: seq<Entry>, used: nat, count: nat, misfit: Option<nat>, left: seq<Entry>,
                                      maxLen: nat)
    requires count + |s| <= MAX_COMMANDS_PER_FRAME
    ensures var p := Pack(s, used, count, maxLen);
            UrgentFirst(s, used, misfit, left, maxLen) <==>
              && KeepsUrgency(s, used, misfit, maxLen)
              && NextFrame(used + CommandsLen(CommandsOf(p.taken)), left + p.left, maxLen)
    decreases |s|
  {
    hide WireLen, Rank, Pack, CommandsLen, CommandsOf;
    if s == [] {
      NothingFitting(used, count, maxLen);
      NoCommands();
      assert left + [] == left;
    } else {
      var e, rest := s[0], s[1..];
      var len := WireLen(e.command);
      assert s == [e] + rest;
      PackCons(e, rest, used, count, maxLen);
      if used + len <= maxLen {
        WalkSplits(rest, used + len, count + 1, misfit, left, maxLen);
        CommandsLenCons(e, Pack(rest, used + len, count + 1, maxLen).taken);
      } else {
        var first := if misfit.Some? then misfit else Some(Rank(e.priority));
        WalkSplits(rest, used, count, first, left + [e], maxLen);
        var p := Pack(rest, used, count, maxLen);
        assert (left + [e]) + p.left == left + ([e] + p.left);
      }
    }
  }

  predicate NextFrame(used: nat, left: seq<Entry>, maxLen: nat) {
    used <= MIN_FRAME_LEN || left == [] || UrgentFirst(left, MIN_FRAME_LEN, None, [], maxLen)
  }

  lemma SortedConcat(a: seq<Entry>, b: seq<Entry>)
    ensures Sorted(MoreUrgent, a + b) <==>
              && Sorted(MoreUrgent, a) && Sorted(MoreUrgent, b)
              && forall x, y :: x in a && y in b ==> !MoreUrgent(y, x)
  {
    hide MoreUrgent;
    var s := a + b;
    if Sorted(MoreUrgent, s) {
      forall i, j | 0 <= i < j < |a| ensures !MoreUrgent(a[j], a[i]) {
        assert s[i] == a[i] && s[j] == a[j];
      }
      forall i, j | 0 <= i < j < |b| ensures !MoreUrgent(b[j], b[i]) {
        assert s[|a| + i] == b[i] && s[|a| + j] == b[j];
      }
      forall x, y | x in a && y in b ensures !MoreUrgent(y, x) {
        var i :| 0 <= i < |a| && a[i] == x;
        var j :| 0 <= j < |b| && b[j] == y;
        assert s[i] == x && s[|a| + j] == y;
      }
    }
  }

  lemma RankedSorted(s: seq<Entry>)
    requires Ranked(s)
    ensures Sorted(MoreUrgent, s)
  {
  }

  lemma NothingSorted()
    ensures Sorted(MoreUrgent, Joined([]))
  {
  }

  lemma PassedPair(p: Packing) returns (a: Entry, b: Entry)
    requires PassesUrgent(p)
    ensures a in p.left && b in p.taken && MoreUrgent(a, b)
  {
    a, b :| a in p.left && b in p.taken && MoreUrgent(a, b);
  }

  /** One step of the long walk over entries that fit alone. */
  lemma WalkUnfolds(f: EntryVec, maxLen: nat)
    requires Sorted(MoreUrgent, f) && Pack(f, MIN_FRAME_LEN, 0, maxLen).taken != []
    ensures var q := Pack(f, MIN_FRAME_LEN, 0, maxLen);
            UrgentFirst(f, MIN_FRAME_LEN, None, [], maxLen) <==>
              !PassesUrgent(q) && UrgentFirst(q.left, MIN_FRAME_LEN, None, [], maxLen)
  {
    hide Pack, PassesUrgent, KeepsUrgency;
    var q := Pack(f, MIN_FRAME_LEN, 0, maxLen);
    WalkExactly(f, MIN_FRAME_LEN, 0, None, maxLen);
    WalkSplits(f, MIN_FRAME_LEN, 0, None, [], maxLen);
    assert [] + q.left == q.left;
    assert q.taken == [q.taken[0]] + q.taken[1..];
    CommandsLenCons(q.taken[0], q.taken[1..]);
    hide CommandsLen, CommandsOf;
  }

  lemma {:induction false} SortedDrain(s: EntryVec, maxLen: nat)
    requires Ranked(s)
    ensures Sorted(MoreUrgent, Joined(Drain(s, maxLen).batches)) <==>
              UrgentFirst(Fitting(s, maxLen), MIN_FRAME_LEN, None, [], maxLen)
    decreases |s|
  {
    hide WireLen, Pack, Packed, Drain, Fitting, Ranked, Sorted, MoreUrgent, Joined, PassesUrgent;
    DrainUnfolds(s, maxLen);
    var f := Fitting(s, maxLen);
    if f == [] {
      NothingSorted();
    } else {
      hide UrgentFirst;
      var q := Pack(f, MIN_FRAME_LEN, 0, maxLen);
      var left := Packed(s, maxLen).left;
      var later := Joined(Drain(left, maxLen).batches);
      SortedDrain(left, maxLen);
      JoinedCons(q.taken, Drain(left, maxLen).batches);
      SortedConcat(q.taken, later);
      LeftIsRanked(f, MIN_FRAME_LEN, 0, maxLen);
      RankedSorted(q.taken);
      RankedSorted(f);
      WalkUnfolds(f, maxLen);
      if PassesUrgent(q) {
        var a, b := PassedPair(q);
        DrainedMembers(left, maxLen, a);
      } else {
        forall x, y | x in q.taken && y in later ensures !MoreUrgent(y, x) {
          DrainedMembers(left, maxLen, y);
          NotPassed(q, y, x);
        }
      }
    }
  }

  lemma NotPassed(p: Packing, a: Entry, b: Entry)
    requires !PassesUrgent(p) && a in p.left && b in p.taken
    ensures !MoreUrgent(a, b)
  {
  }

  /** For every reachable queue: draining sends the entries in priority order if and only if the walk over the entries
      that fit alone, frame after frame, meets none that fits behind a more urgent misfit. */
  lemma DrainsByPriorityExactly(es: EntryVec, maxLen: nat)
    requires InOrder(es)
    ensures Sorted(MoreUrgent, Joined(Drain(es, maxLen).batches)) <==>
              UrgentFirst(Fitting(Sort(MoreUrgent, es), maxLen), MIN_FRAME_LEN, None, [], maxLen)
  {
    hide Pack, Ranked, Fitting, UrgentFirst, Joined, Sorted;
    var s := Sort(MoreUrgent, es);
    SortRanks(es);
    RankedIsSorted(s);
    SortedDrain(s, maxLen);
    assert Packed(es, maxLen) == Packed(s, maxLen);
  }

  // ---------- A queue for which both remarks fail ----------

  function Chunk(priority: Priority, len: nat, ticket: nat): Entry
    requires CMD_HEADER_LEN <= len <= CMD_HEADER_LEN + 255
  {
    Entry(priority, FaceCustom(seq(len - CMD_HEADER_LEN, _ => 0)), ticket)
  }

  /** An emergency of 100 bytes, a motion command of 50 and sensor data of 10, in frames of at most 125 bytes. */
  const MISFITS: seq<Entry> := [Chunk(Emergency, 100, 0), Chunk(Motion, 50, 1), Chunk(BestEffort, 10, 2)]

  lemma ChunkLen(priority: Priority, len: nat, ticket: nat)
    requires CMD_HEADER_LEN <= len <= CMD_HEADER_LEN + 255
    ensures WireLen(Chunk(priority, len, ticket).command) == len
  {
  }

  lemma PackMisfits(e: Entry, a: Entry, b: Entry)
    requires WireLen(e.command) == 100 && WireLen(a.command) == 50 && WireLen(b.command) == 10
    ensures Pack([e, a, b], MIN_FRAME_LEN, 0, 125) == Packing([e, b], [a])
  {
    hide WireLen, Pack;
    NothingFitting(120, 2, 125);
    PackCons(b, [], 110, 1, 125);
    assert [b] == [b] + [];
    assert Pack([b], 110, 1, 125) == Packing([b], []);
    PackCons(a, [b], 110, 1, 125);
    assert [a, b] == [a] + [b];
    assert Pack([a, b], 110, 1, 125) == Packing([b], [a]);
    PackCons(e, [a, b], MIN_FRAME_LEN, 0, 125);
    assert [e, a, b] == [e] + [a, b];
  }

  /** Packing goes on behind the motion command, and the sensor data is sent before it. */
  lemma PackingGoesOn()
    ensures InOrder(MISFITS)
    ensures Packed(MISFITS, 125) == Packing([MISFITS[0], MISFITS[2]], [MISFITS[1]])
    ensures Joined(Drain(MISFITS, 125).batches) == [MISFITS[0], MISFITS[2], MISFITS[1]]
    ensures !Sorted(MoreUrgent, Joined(Drain(MISFITS, 125).batches))
  {
    hide Drain, WireLen, Joined, Pack, Sort;
    var e, a, b := MISFITS[0], MISFITS[1], MISFITS[2];
    assert MISFITS == [e, a, b];
    ChunkLen(Emergency, 100, 0);
    ChunkLen(Motion, 50, 1);
    ChunkLen(BestEffort, 10, 2);
    PackMisfits(e, a, b);
    RankedIsSorted([e, a, b]);
    DrainMisfits(e, a, b);
    assert MoreUrgent([e, b, a][2], [e, b, a][1]);
  }

  lemma DrainMisfits(e: Entry, a: Entry, b: Entry)
    requires Packed([e, a, b], 125) == Packing([e, b], [a])
    requires WireLen(a.command) == 50
    ensures Joined(Drain([e, a, b], 125).batches) == [e, b, a]
  {
    hide WireLen, Pack, Sort;
    RankedIsSorted([a]);
    RankedIsSorted([]);
    NothingFitting(MIN_FRAME_LEN, 0, 125);
    NothingFitting(60, 1, 125);
    assert [a] == [a] + [];
    PackCons(a, [], MIN_FRAME_LEN, 0, 125);
    assert Packed([a], 125) == Packing([a], []);
    assert Packed([], 125) == Packing([], []);
    assert Drain([], 125).batches == [];
    assert Drain([a], 125).batches == [[a]] + [];
    assert Drain([e, a, b], 125).batches == [[e, b]] + [[a]];
    JoinedCons([e, b], [[a]]);
    JoinedCons([a], []);
    assert [[a]] + [] == [[a]];
  }
}
