/** BCP frames over BLE: fragmentation by the sender, reassembly by the receiver. */
module Ble {
  import opened Bytes
  import opened Outcomes
  import opened Folds
  import Codec

  const ATT_OVERHEAD := 3
  const FRAGMENT_TIMEOUT := 2.0

  // ---------- The sender ----------

  function HighFirst(hi: int, lo: int): int {
    hi * 0x100 + lo
  }

  /** Total length, high byte first. */
  function FragmentHeader(total: nat): (h: seq<byte>)
    requires total < 0x1_0000
    ensures |h| == 2 && HighFirst(h[0], h[1]) == total
  {
    [total / 0x100, total % 0x100]
  }

  lemma HeaderBytes(total: nat)
    requires total < 0x1_0000
    ensures FragmentHeader(total) == [total / 0x100] + [total % 0x100]
  {
  }

  function Min(a: nat, b: nat): nat {
    if a <= b then a else b
  }

  function Fragments(data: seq<byte>, offset: nat, size: nat): seq<seq<byte>>
    requires |data| < 0x1_0000 && size > 0
    decreases |data| - offset
  {
    if offset >= |data| then []
    else
      var n := Min(size, |data| - offset);
      [FragmentHeader(|data|) + data[offset..offset + n]] + Fragments(data, offset + n, size)
  }

  /** What is written to the characteristic for one frame. */
  function Chunks(data: seq<byte>, mtu: nat): seq<seq<byte>>
    requires |data| < 0x1_0000 && mtu > ATT_OVERHEAD
  {
    if |data| <= mtu - ATT_OVERHEAD then [data] else Fragments(data, 0, mtu - ATT_OVERHEAD)
  }

  method SendBcpFrame(data: seq<byte>, negotiatedMtu: nat) returns (writes: seq<seq<byte>>)
    requires |data| < 0x1_0000 && negotiatedMtu > ATT_OVERHEAD
    ensures writes == Chunks(data, negotiatedMtu)
  {
    var effectiveMtu := negotiatedMtu - 3;
    hide FragmentHeader;
    if |data| <= effectiveMtu {
      return [data];
    }
    writes := [];
    var offset := 0;
    while offset < |data|
      invariant 0 <= offset <= |data|
      invariant Fragments(data, 0, effectiveMtu) == writes + Fragments(data, offset, effectiveMtu)
    {
      var chunkSize := if effectiveMtu <= |data| - offset then effectiveMtu else |data| - offset;
      var chunk: seq<byte> := [|data| / 0x100] + [|data| % 0x100] + data[offset..offset + chunkSize];
      ghost var rest := Fragments(data, offset + chunkSize, effectiveMtu);
      HeaderBytes(|data|);
      assert Fragments(data, offset, effectiveMtu) == [chunk] + rest;
      assert writes + ([chunk] + rest) == (writes + [chunk]) + rest;
      writes := writes + [chunk];
      offset := offset + chunkSize;
    }
  }

  function Payloads(chunks: seq<seq<byte>>): seq<byte> {
    if chunks == [] then [] else (if |chunks[0]| >= 2 then chunks[0][2..] else []) + Payloads(chunks[1..])
  }

  /** The fragments carry the frame, in order and without loss. */
  lemma {:induction false} FragmentsCarry(data: seq<byte>, offset: nat, size: nat)
    requires offset <= |data| < 0x1_0000 && size > 0
    ensures Payloads(Fragments(data, offset, size)) == data[offset..]
    decreases |data| - offset
  {
    hide FragmentHeader;
    if offset < |data| {
      var n := Min(size, |data| - offset);
      FragmentsCarry(data, offset + n, size);
      var first := FragmentHeader(|data|) + data[offset..offset + n];
      assert Fragments(data, offset, size)[1..] == Fragments(data, offset + n, size);
      assert first[2..] == data[offset..offset + n];
      assert data[offset..offset + n] + data[offset + n..] == data[offset..];
    }
  }

  /** Every fragment announces the length of the whole frame, high byte first. */
  lemma {:induction false} FragmentsAnnounce(data: seq<byte>, offset: nat, size: nat)
    requires offset <= |data| < 0x1_0000 && size > 0
    ensures forall c :: c in Fragments(data, offset, size) ==>
              |c| >= 2 && 256 * c[0] as int + c[1] == |data| && c[0] == |data| / 256 && c[1] == |data| % 256
    decreases |data| - offset
  {
    if offset < |data| {
      var n := Min(size, |data| - offset);
      FragmentsAnnounce(data, offset + n, size);
      assert (FragmentHeader(|data|) + data[offset..offset + n])[..2] == FragmentHeader(|data|);
    }
  }

  /** A fragment is its part of the frame behind two header bytes. */
  lemma {:induction false} FragmentLengths(data: seq<byte>, offset: nat, size: nat)
    requires offset <= |data| < 0x1_0000 && size > 0
    ensures forall c :: c in Fragments(data, offset, size) ==> 2 < |c| <= size + 2
    decreases |data| - offset
  {
    hide FragmentHeader;
    if offset < |data| {
      FragmentLengths(data, offset + Min(size, |data| - offset), size);
    }
  }

  /** The writes respect the effective MTU exactly when the frame needs no fragments: the header comes on top of a
      first fragment that is full already. */
  lemma WritesFitExactly(data: seq<byte>, mtu: nat)
    requires |data| < 0x1_0000 && mtu > 3
    ensures (forall c :: c in Chunks(data, mtu) ==> |c| <= mtu - 3) <==> |data| <= mtu - 3
  {
    if |data| > mtu - 3 {
      var first := Chunks(data, mtu)[0];
      assert first in Chunks(data, mtu) && |first| == mtu - 3 + 2;
    }
  }

  // ---------- The receiver ----------

  /** One notification, with the clock when a new reassembly would be stamped and when the timeout is checked. */
  datatype Delivery = Delivery(data: seq<byte>, stamp: real, check: real)

  datatype Buffer = Buffer(bytes: seq<byte>, expected: nat, since: Option<real>)

  function Append(b: Buffer, d: Delivery): Buffer
    requires |d.data| >= 2
  {
    var total := HighFirst(d.data[0], d.data[1]);
    if 0 < total <= Codec.MAX_FRAME_LEN then
      if b.bytes == [] then Buffer(d.data[2..], total, Some(d.stamp))
      else b.(bytes := b.bytes + d.data[2..])
    else Buffer(d.data, |d.data|, b.since)
  }

  predicate TimedOut(b: Buffer, now: real) {
    b.bytes != [] && b.since.Some? && now - b.since.value > FRAGMENT_TIMEOUT
  }

  /** The buffer after one notification and the frame handed on, if any. */
  function Receive(b: Buffer, d: Delivery): (Buffer, seq<seq<byte>>) {
    if |d.data| < 2 then (b, [])
    else
      var a := Append(b, d);
      if a.bytes != [] && |a.bytes| >= a.expected then (Buffer([], 0, a.since), [a.bytes[..a.expected]])
      else if TimedOut(a, d.check) then (Buffer([], 0, a.since), [])
      else (a, [])
  }

  function BufferAfter(b: Buffer, ds: seq<Delivery>): Buffer
    decreases |ds|
  {
    if ds == [] then b else BufferAfter(Receive(b, ds[0]).0, ds[1..])
  }

  function FramesOut(b: Buffer, ds: seq<Delivery>): seq<seq<byte>>
    decreases |ds|
  {
    if ds == [] then [] else Receive(b, ds[0]).1 + FramesOut(Receive(b, ds[0]).0, ds[1..])
  }

  class Receiver {
    var fragmentBuffer: seq<byte>
    var expectedTotalLen: nat
    var fragmentTimestamp: Option<real>

    function State(): Buffer
      reads this
    {
      Buffer(fragmentBuffer, expectedTotalLen, fragmentTimestamp)
    }

    constructor ()
      ensures State() == Buffer([], 0, None)
    {
      fragmentBuffer, expectedTotalLen, fragmentTimestamp := [], 0, None;
    }

    method HandleReceivedData(d: Delivery) returns (frames: seq<seq<byte>>)
      modifies this
      ensures (State(), frames) == Receive(old(State()), d)
    {
      frames := [];
      if |d.data| < 2 {
        return;
      }
      var totalLen := HighFirst(d.data[0], d.data[1]);
      assert [] + d.data[2..] == d.data[2..];
      if totalLen > 0 && totalLen <= Codec.MAX_FRAME_LEN {
        if fragmentBuffer == [] {
          expectedTotalLen := totalLen;
          fragmentTimestamp := Some(d.stamp);
        }
        fragmentBuffer := fragmentBuffer + d.data[2..];
      } else {
        fragmentBuffer := d.data;
        expectedTotalLen := |d.data|;
      }
      if fragmentBuffer != [] && |fragmentBuffer| >= expectedTotalLen {
        frames := [fragmentBuffer[..expectedTotalLen]];
        fragmentBuffer := [];
        expectedTotalLen := 0;
      }
      if fragmentBuffer != [] && fragmentTimestamp.Some? && d.check - fragmentTimestamp.value > 2.0 {
        fragmentBuffer := [];
        expectedTotalLen := 0;
      }
    }

    method HandleAll(ds: seq<Delivery>) returns (frames: seq<seq<byte>>)
      modifies this
      ensures State() == BufferAfter(old(State()), ds)
      ensures frames == FramesOut(old(State()), ds)
    {
      frames := [];
      assert ds[0..] == ds;
      for k := 0 to |ds|
        invariant BufferAfter(old(State()), ds) == BufferAfter(State(), ds[k..])
        invariant FramesOut(old(State()), ds) == frames + FramesOut(State(), ds[k..])
      {
        assert ds[k..][0] == ds[k] && ds[k..][1..] == ds[k + 1..];
        var more := HandleReceivedData(ds[k]);
        frames := frames + more;
      }
      assert ds[|ds|..] == [];
    }
  }

  // ---------- Whole frames ----------

  /** What the sender is given: 10 to 1024 bytes that start with the magic byte and the version. */
  predicate BcpBytes(data: seq<byte>) {
    10 <= |data| <= 1024 && data[0] == 0xCB && data[1] == 0x01
  }

  lemma BcpBytesShort()
    ensures forall data :: BcpBytes(data) ==> |data| < 0x1_0000
  {
  }

  /** What is shorter than a header changes nothing. Data whose first two bytes, high byte first, are zero or above 1024
      are handed on whole, whatever was in the buffer. */
  lemma WithoutHeader(b: Buffer, d: Delivery)
    ensures |d.data| < 2 ==> Receive(b, d) == (b, [])
    ensures |d.data| >= 2 && (256 * d.data[0] as int + d.data[1] == 0 || 256 * d.data[0] as int + d.data[1] > 1024) ==>
              Receive(b, d) == (Buffer([], 0, b.since), [d.data])
  {
    assert d.data[..|d.data|] == d.data;
  }

  /** The first fragment of a frame: it opens a buffer, completes the frame, or comes too late already. One without
      any bytes only notes the length. */
  lemma FirstFragment(b: Buffer, d: Delivery)
    requires b.bytes == [] && |d.data| >= 2 && 0 < 256 * d.data[0] as int + d.data[1] <= 1024
    ensures var total := 256 * d.data[0] as int + d.data[1];
            Receive(b, d) ==
              if |d.data| >= 2 + total then (Buffer([], 0, Some(d.stamp)), [d.data[2..2 + total]])
              else if |d.data| > 2 && d.check - d.stamp > 2.0 then (Buffer([], 0, Some(d.stamp)), [])
              else (Buffer(d.data[2..], total, Some(d.stamp)), [])
  {
    var total := HighFirst(d.data[0], d.data[1]);
    if |d.data| >= 2 + total {
      assert d.data[2..][..total] == d.data[2..2 + total];
    }
  }

  /** A further fragment: it is appended, whatever length it announces, and completes the frame, or the frame is dropped
      two seconds after its beginning. */
  lemma FurtherFragment(b: Buffer, d: Delivery)
    requires b.bytes != [] && |d.data| >= 2 && 0 < 256 * d.data[0] as int + d.data[1] <= 1024
    ensures var bytes := b.bytes + d.data[2..];
            Receive(b, d) ==
              if |bytes| >= b.expected then (Buffer([], 0, b.since), [bytes[..b.expected]])
              else if b.since.Some? && d.check - b.since.value > 2.0 then (Buffer([], 0, b.since), [])
              else (Buffer(bytes, b.expected, b.since), [])
  {
  }

  /** An unfragmented frame gets through from any stale state and leaves the buffer clean. */
  lemma WholeFrameRecovers(b: Buffer, d: Delivery)
    requires BcpBytes(d.data)
    ensures Receive(b, d).1 == [d.data] && Receive(b, d).0.bytes == []
  {
    assert d.data[..|d.data|] == d.data;
  }

  function DataOf(ds: seq<Delivery>): (s: seq<seq<byte>>)
    ensures |s| == |ds|
  {
    seq(|ds|, i requires 0 <= i < |ds| => ds[i].data)
  }

  /** The timeout check after each chunk but the last comes within two seconds of the stamp. */
  ghost predicate InWindow(ds: seq<Delivery>, since: real) {
    forall k :: 0 <= k < |ds| - 1 ==> ds[k].check - since <= 2.0
  }

  /** Fragments that carry too little to complete a frame of `total` bytes hand nothing on. */
  lemma {:induction false} TooShort(b: Buffer, data: seq<byte>, offset: nat, size: nat, ds: seq<Delivery>)
    requires offset <= |data| <= Codec.MAX_FRAME_LEN && size > 0 && DataOf(ds) == Fragments(data, offset, size)
    requires |b.bytes| < offset && (b.bytes != [] ==> b.expected == |data|)
    ensures FramesOut(b, ds) == []
    decreases |ds|
  {
    if ds != [] {
      NextFragment(data, offset, size, ds);
      var n := Min(size, |data| - offset);
      TooShort(Receive(b, ds[0]).0, data, offset + n, size, ds[1..]);
    }
  }

  lemma NextFragment(data: seq<byte>, offset: nat, size: nat, ds: seq<Delivery>)
    requires offset <= |data| < 0x1_0000 && size > 0 && DataOf(ds) == Fragments(data, offset, size) && ds != []
    ensures offset < |data|
    ensures var n := Min(size, |data| - offset);
            && ds[0].data == FragmentHeader(|data|) + data[offset..offset + n]
            && ds[0].data[2..] == data[offset..offset + n]
            && HighFirst(ds[0].data[0], ds[0].data[1]) == |data|
            && DataOf(ds[1..]) == Fragments(data, offset + n, size)
            && (|ds| == 1 <==> offset + n == |data|)
  {
    var n := Min(size, |data| - offset);
    assert DataOf(ds)[0] == ds[0].data;
    assert DataOf(ds)[1..] == DataOf(ds[1..]);
  }

  /** Fragments in order from the middle of a frame: the frame comes out, once, if and only if no timeout
      intervenes. */
  lemma {:induction false} FragmentsReassemble(b: Buffer, data: seq<byte>, offset: nat, size: nat, ds: seq<Delivery>,
                                               since: real)
    requires offset < |data| <= Codec.MAX_FRAME_LEN && size > 0 && DataOf(ds) == Fragments(data, offset, size)
    requires if offset == 0 then b.bytes == [] && ds != [] && since == ds[0].stamp
             else b == Buffer(data[..offset], |data|, Some(since))
    ensures FramesOut(b, ds) == if InWindow(ds, since) then [data] else []
    ensures InWindow(ds, since) ==> BufferAfter(b, ds).bytes == []
    decreases |ds|
  {
    NextFragment(data, offset, size, ds);
    var n := Min(size, |data| - offset);
    var a := Append(b, ds[0]);
    assert data[..offset] + data[offset..offset + n] == data[..offset + n];
    assert a == Buffer(data[..offset + n], |data|, Some(since));
    if |ds| == 1 {
      assert data[..|data|] == data && ds[1..] == [];
    } else {
      WindowTail(ds, since);
      if TimedOut(a, ds[0].check) {
        TooShort(Receive(b, ds[0]).0, data, offset + n, size, ds[1..]);
      } else {
        FragmentsReassemble(Receive(b, ds[0]).0, data, offset + n, size, ds[1..], since);
      }
    }
  }

  lemma WindowTail(ds: seq<Delivery>, since: real)
    requires |ds| > 1
    ensures InWindow(ds, since) <==> ds[0].check - since <= 2.0 && InWindow(ds[1..], since)
  {
    if ds[0].check - since <= 2.0 && InWindow(ds[1..], since) {
      forall k | 0 <= k < |ds| - 1 ensures ds[k].check - since <= 2.0 {
        assert k > 0 ==> ds[k] == ds[1..][k - 1];
      }
    }
    if InWindow(ds, since) {
      forall k | 0 <= k < |ds[1..]| - 1 ensures ds[1..][k].check - since <= 2.0 {
        assert ds[1..][k] == ds[k + 1];
      }
    }
  }

  /** One frame into a clean buffer, under any MTU. A single write always gets through; fragments do if and only
      if they arrive in time, and otherwise nothing is handed on. */
  lemma FrameExactly(b: Buffer, data: seq<byte>, mtu: nat, ds: seq<Delivery>)
    requires BcpBytes(data) && mtu > 3 && b.bytes == [] && DataOf(ds) == Chunks(data, mtu)
    ensures ds != []
    ensures FramesOut(b, ds) == if InWindow(ds, ds[0].stamp) then [data] else []
    ensures InWindow(ds, ds[0].stamp) ==> BufferAfter(b, ds).bytes == []
  {
    if |data| <= mtu - 3 {
      assert ds[0].data == DataOf(ds)[0] && ds[1..] == [];
      WholeFrameRecovers(b, ds[0]);
    } else {
      FragmentsReassemble(b, data, 0, mtu - 3, ds, ds[0].stamp);
    }
  }

  // ---------- Fragments on a stale buffer ----------

  /** `have` bytes are stale or collected and `need` are expected: whether the deliveries complete the buffer before a
      timeout clears it. */
  predicate Completes(have: nat, need: nat, since: Option<real>, ds: seq<Delivery>)
    requires forall d :: d in ds ==> |d.data| >= 2
    decreases |ds|
  {
    ds != [] &&
    var more := have + |ds[0].data| - 2;
    more >= need
    || (!(since.Some? && ds[0].check - since.value > 2.0) && Completes(more, need, since, ds[1..]))
  }

  lemma FragmentsHaveHeaders(data: seq<byte>, offset: nat, size: nat, ds: seq<Delivery>)
    requires offset <= |data| < 0x1_0000 && size > 0 && DataOf(ds) == Fragments(data, offset, size)
    ensures forall d :: d in ds ==> |d.data| >= 2
  {
    FragmentLengths(data, offset, size);
    forall d | d in ds ensures |d.data| >= 2 {
      var i :| 0 <= i < |ds| && ds[i] == d;
      assert DataOf(ds)[i] in Fragments(data, offset, size);
    }
  }

  /** Between notifications a buffer is empty or partial. */
  lemma {:induction false} BuffersArePartial(b: Buffer, ds: seq<Delivery>)
    requires b.bytes == [] || |b.bytes| < b.expected
    ensures BufferAfter(b, ds).bytes == [] || |BufferAfter(b, ds).bytes| < BufferAfter(b, ds).expected
    decreases |ds|
  {
    if ds != [] {
      BuffersArePartial(Receive(b, ds[0]).0, ds[1..]);
    }
  }

  /** One fragment is appended behind the stale bytes. */
  lemma SpliceOne(b: Buffer, data: seq<byte>, offset: nat, size: nat, ds: seq<Delivery>)
    requires offset <= |data| <= Codec.MAX_FRAME_LEN && size > 0 && DataOf(ds) == Fragments(data, offset, size)
    requires b.bytes != [] && ds != [] && |ds[0].data| >= 2
    ensures var n := Min(size, |data| - offset);
            var a := Append(b, ds[0]);
            && offset + n <= |data|
            && a == b.(bytes := b.bytes + data[offset..offset + n])
            && b.bytes + data[offset..] == a.bytes + data[offset + n..]
            && |a.bytes| == |b.bytes| + |ds[0].data| - 2
  {
    NextFragment(data, offset, size, ds);
    hide FragmentHeader, Fragments, DataOf;
    var n := Min(size, |data| - offset);
    assert data[offset..] == data[offset..offset + n] + data[offset + n..];
  }

  /** What fragments make of a partial buffer: they are spliced onto it, and if that completes it, the spliced bytes
      come out, cut to the stale length; nothing else does. */
  lemma {:induction false} FragmentsSplice(b: Buffer, data: seq<byte>, offset: nat, size: nat, ds: seq<Delivery>)
    requires offset <= |data| <= Codec.MAX_FRAME_LEN && size > 0 && DataOf(ds) == Fragments(data, offset, size)
    requires 0 < |b.bytes| < b.expected
    requires forall d :: d in ds ==> |d.data| >= 2
    ensures Completes(|b.bytes|, b.expected, b.since, ds) ==> b.expected <= |b.bytes| + |data| - offset
    ensures FramesOut(b, ds) ==
              if Completes(|b.bytes|, b.expected, b.since, ds) then [(b.bytes + data[offset..])[..b.expected]] else []
    decreases |ds|
  {
    if ds != [] {
      var n := Min(size, |data| - offset);
      var a := Append(b, ds[0]);
      var b' := Receive(b, ds[0]).0;
      SpliceOne(b, data, offset, size, ds);
      NextFragment(data, offset, size, ds);
      hide Append, Fragments, FragmentHeader;
      if |a.bytes| >= a.expected {
        assert (a.bytes + data[offset + n..])[..b.expected] == a.bytes[..b.expected];
        TooShort(b', data, offset + n, size, ds[1..]);
      } else if TimedOut(a, ds[0].check) {
        TooShort(b', data, offset + n, size, ds[1..]);
      } else {
        FragmentsSplice(b', data, offset + n, size, ds[1..]);
      }
    }
  }

  /** A fragmented frame on a stale partial buffer: the spliced bytes come out, or nothing. */
  lemma StaleFrame(b: Buffer, data: seq<byte>, mtu: nat, ds: seq<Delivery>)
    requires BcpBytes(data) && mtu > 3 && |data| > mtu - 3
    requires DataOf(ds) == Chunks(data, mtu) && 0 < |b.bytes| < b.expected
    ensures forall d :: d in ds ==> |d.data| >= 2
    ensures Completes(|b.bytes|, b.expected, b.since, ds) ==> b.expected <= |b.bytes| + |data|
    ensures FramesOut(b, ds) ==
              if Completes(|b.bytes|, b.expected, b.since, ds) then [(b.bytes + data)[..b.expected]] else []
  {
    FragmentsHaveHeaders(data, 0, mtu - 3, ds);
    FragmentsSplice(b, data, 0, mtu - 3, ds);
    assert data[0..] == data;
  }

  /** It comes out intact if and only if the stale length is its own, the stale bytes and the frame behind them start
      like the frame, and the buffer is complete before a timeout. */
  lemma StaleFrameExactly(b: Buffer, data: seq<byte>, mtu: nat, ds: seq<Delivery>)
    requires BcpBytes(data) && mtu > 3 && |data| > mtu - 3
    requires DataOf(ds) == Chunks(data, mtu) && 0 < |b.bytes| < b.expected
    ensures forall d :: d in ds ==> |d.data| >= 2
    ensures FramesOut(b, ds) == [data] <==>
              && b.expected == |data| && (b.bytes + data)[..|data|] == data
              && Completes(|b.bytes|, b.expected, b.since, ds)
  {
    hide FramesOut, Completes, Chunks;
    StaleFrame(b, data, mtu, ds);
    if Completes(|b.bytes|, b.expected, b.since, ds) {
      assert FramesOut(b, ds)[0] == (b.bytes + data)[..b.expected];
    }
  }

  // ---------- Streams of frames ----------

  lemma {:induction false} FramesOutAppend(b: Buffer, xs: seq<Delivery>, ys: seq<Delivery>)
    ensures FramesOut(b, xs + ys) == FramesOut(b, xs) + FramesOut(BufferAfter(b, xs), ys)
    ensures BufferAfter(b, xs + ys) == BufferAfter(BufferAfter(b, xs), ys)
    decreases |xs|
  {
    hide Receive;
    if xs == [] {
      assert xs + ys == ys;
    } else {
      assert (xs + ys)[1..] == xs[1..] + ys;
      FramesOutAppend(Receive(b, xs[0]).0, xs[1..], ys);
    }
  }

  /** Each frame is well-formed, and the chunks of frame `i` arrive as `groups[i]`, in order and in time. */
  ghost predicate Delivered(frames: seq<seq<byte>>, mtu: nat, groups: seq<seq<Delivery>>)
    requires mtu > 3
  {
    && |groups| == |frames|
    && forall i :: 0 <= i < |frames| ==>
         && BcpBytes(frames[i]) && DataOf(groups[i]) == Chunks(frames[i], mtu)
         && groups[i] != [] && InWindow(groups[i], groups[i][0].stamp)
  }

  /** Any list of frames, under any MTU, comes out as exactly that list. */
  lemma {:induction false} Reassembled(b: Buffer, frames: seq<seq<byte>>, mtu: nat, groups: seq<seq<Delivery>>)
    requires b.bytes == [] && mtu > 3 && Delivered(frames, mtu, groups)
    ensures FramesOut(b, Joined(groups)) == frames
    ensures BufferAfter(b, Joined(groups)).bytes == []
    decreases |frames|
  {
    hide BcpBytes, Chunks, InWindow, Receive;
    BcpBytesShort();
    if frames != [] {
      FrameExactly(b, frames[0], mtu, groups[0]);
      FramesOutAppend(b, groups[0], Joined(groups[1..]));
      Reassembled(BufferAfter(b, groups[0]), frames[1..], mtu, groups[1..]);
      assert [frames[0]] + frames[1..] == frames;
    }
  }

  /** Encoded frames are what the sender expects, so they pass through BLE and decode to themselves. */
  lemma EncodedFramePasses(b: Buffer, f: Codec.Frame, mtu: nat, ds: seq<Delivery>)
    requires Codec.TotalLen(f) <= Codec.MAX_FRAME_LEN && Codec.Faithful(f) && mtu > 3 && b.bytes == []
    requires DataOf(ds) == Chunks(Codec.Encoded(f), mtu) && ds != [] && InWindow(ds, ds[0].stamp)
    ensures FramesOut(b, ds) == [Codec.Encoded(f)]
    ensures Codec.Decoded(FramesOut(b, ds)[0]) == Ok((f, Codec.TotalLen(f)))
  {
    hide FramesOut, InWindow, Chunks, Codec.Decoded, Codec.Encoded;
    Codec.HeaderFields(f);
    FrameExactly(b, Codec.Encoded(f), mtu, ds);
    Codec.RoundTripExactly(f);
  }
}
