/** What the checksum catches: corrupted frames are rejected, and exactly which patterns slip through. */
module Corruption {
  import opened Bytes
  import opened Outcomes
  import opened Folds
  import opened Crc
  import opened Codec

  // ---------- Bytes and their bits ----------

  lemma {:induction false} BitAt(data: seq<byte>, q: nat)
    requires q < 8 * |data|
    ensures |Bits(data)| == 8 * |data|
    ensures Bits(data)[q] == ByteBits(data[q / 8])[q % 8]
    decreases |data|
  {
    hide ByteBits;
    BitsLength(data);
    BitsLength(data[1..]);
    if q >= 8 {
      BitAt(data[1..], q - 8);
      assert data[1..][(q - 8) / 8] == data[q / 8];
    }
  }

  lemma {:induction false} BitsLength(data: seq<byte>)
    ensures |Bits(data)| == 8 * |data|
  {
    if data != [] {
      BitsLength(data[1..]);
    }
  }

  /** The byte sequences agree outside positions `i` and `i + 1`. */
  predicate DifferOnlyAt(a: seq<byte>, b: seq<byte>, i: nat) {
    |a| == |b| && forall k :: 0 <= k < |a| && k != i && k != i + 1 ==> a[k] == b[k]
  }

  lemma TwoBytesAreABurst(a: seq<byte>, b: seq<byte>, i: nat)
    requires DifferOnlyAt(a, b, i)
    ensures DifferOnlyIn(Bits(a), Bits(b), 8 * i, 16)
  {
    hide ByteBits;
    BitsLength(a);
    BitsLength(b);
    forall q | 0 <= q < |Bits(a)| && !(8 * i <= q < 8 * i + 16) ensures Bits(a)[q] == Bits(b)[q] {
      BitAt(a, q);
      BitAt(b, q);
    }
  }

  // ---------- Frames ----------

  /** The comparison `decode` makes between the stored and the computed checksum. */
  predicate CrcAccepts(w: seq<byte>)
    requires |w| >= 2
  {
    w[|w| - 2..] == WordBytes(Crc16(w[..|w| - 2]))
  }

  lemma RejectedUnlessCrcAccepts(w: seq<byte>)
    requires |w| >= MIN_FRAME_LEN && U16(w[2], w[3]) == |w| && !CrcAccepts(w)
    ensures Decoded(w).Err?
  {
    hide Codec.ParseCommands, Crc16, WordBytes;
    assert w[..|w|] == w;
  }

  /** A burst of at most 16 bits anywhere in the checksummed part of an encoded frame, the length field
      excepted, is rejected. */
  lemma BurstRejected(f: Frame, w: seq<byte>, from: nat)
    requires TotalLen(f) <= MAX_FRAME_LEN && |w| == TotalLen(f)
    requires w != Encoded(f) && w[2..4] == Encoded(f)[2..4]
    requires w[|w| - 2..] == Encoded(f)[|w| - 2..]
    requires DifferOnlyIn(Bits(w[..|w| - 2]), Bits(Body(f)), from, 16)
    ensures Decoded(w).Err?
  {
    HeaderFields(f);
    assert w == w[..|w| - 2] + w[|w| - 2..];
    BurstDetected(w[..|w| - 2], Body(f), from);
    if CrcAccepts(w) {
      WordBytesInjective(Crc16(w[..|w| - 2]), Crc16(Body(f)));
    }
    SameLength(w, Encoded(f));
    RejectedUnlessCrcAccepts(w);
  }

  lemma SameLength(w: seq<byte>, e: seq<byte>)
    requires |w| >= 4 && |e| >= 4 && w[2..4] == e[2..4]
    ensures w[2] == e[2] && w[3] == e[3]
  {
    assert w[2..4][0] == e[2..4][0] && w[2..4][1] == e[2..4][1];
  }

  /** Corruption inside two adjacent bytes, both before the checksum or both the checksum, is rejected. */
  lemma AdjacentCorruptionRejected(f: Frame, w: seq<byte>, i: nat)
    requires TotalLen(f) <= MAX_FRAME_LEN && DifferOnlyAt(w, Encoded(f), i)
    requires w != Encoded(f) && w[2..4] == Encoded(f)[2..4]
    requires i + 1 < |w| - 2 || i == |w| - 2
    ensures Decoded(w).Err?
  {
    var n := |w|;
    HeaderFields(f);
    if i == n - 2 {
      assert w[..n - 2] == Encoded(f)[..n - 2];
      assert w == w[..n - 2] + w[n - 2..] && Encoded(f) == Encoded(f)[..n - 2] + Encoded(f)[n - 2..];
      assert !CrcAccepts(w);
      SameLength(w, Encoded(f));
      RejectedUnlessCrcAccepts(w);
    } else {
      assert w[n - 2..] == Encoded(f)[n - 2..];
      assert DifferOnlyAt(w[..n - 2], Body(f), i);
      TwoBytesAreABurst(w[..n - 2], Body(f), i);
      BurstRejected(f, w, 8 * i);
    }
  }

  /** Any single corrupted byte outside the length field is rejected. */
  lemma SingleCorruptionRejected(f: Frame, i: nat, v: byte)
    requires TotalLen(f) <= MAX_FRAME_LEN && i < TotalLen(f) && i != 2 && i != 3 && v != Encoded(f)[i]
    ensures Decoded(Encoded(f)[i := v]).Err?
  {
    var w := Encoded(f)[i := v];
    assert w[i] != Encoded(f)[i];
    var k := if i >= |w| - 2 then |w| - 2 else if i + 1 == |w| - 2 then i - 1 else i;
    AdjacentCorruptionRejected(f, w, k);
  }

  // ---------- The pattern that slips through ----------

  /** The bits in which two octets differ. */
  function Diff(x: octet, y: octet): octet {
    x ^ y
  }

  lemma UpperLinear(i: octet, j: octet)
    ensures Upper(Diff(i, j)) == XorWords(Upper(i), Upper(j))
  {
  }

  lemma EntryLinear(i: octet, j: octet)
    ensures Entry(Diff(i, j)) == XorWords(Entry(i), Entry(j))
  {
    hide XorWords, Upper, Shift, Diff;
    UpperLinear(i, j);
    ShiftTimesLinear(Upper(i), Upper(j), 8);
  }

  lemma IndexDifference(c: word, x: octet, y: octet)
    ensures Diff(Index(c, x), Index(c, y)) == Diff(x, y)
  {
  }

  lemma XorCancel(a: word, p: word, q: word)
    ensures XorWords(XorWords(a, p), XorWords(a, q)) == XorWords(p, q)
  {
    assert (a ^ p) ^ (a ^ q) == p ^ q;
  }

  /** One more byte after checksum `c`: the two results differ by the table entry of the difference. */
  lemma StepDifference(c: word, x: octet, y: octet)
    ensures XorWords(OctetStep(c, x), OctetStep(c, y)) == Entry(Diff(x, y))
  {
    hide XorWords, Entry, Index, Times256, Diff;
    XorCancel(Times256(c), Entry(Index(c, x)), Entry(Index(c, y)));
    IndexDifference(c, x, y);
    EntryLinear(Index(c, x), Index(c, y));
  }

  lemma FormulaHighByte(d: octet)
    ensures Formula(d) >> 8 == 0 <==> d == 0 || d == 0x89
    ensures Formula(0x89) == 0x00A1
  {
  }

  function LowHalf(w: word): octet {
    (w & 0xFF) as octet
  }

  function HighHalf(w: word): octet {
    (w >> 8) as octet
  }

  /** How two checksums relate when their difference is the table entry of `d`. */
  lemma HalvesOfDifference(s: word, t: word, d: octet, e: octet)
    requires XorWords(s, t) == Formula(d)
    ensures HighHalf(s) == HighHalf(t) <==> d == 0 || d == 0x89
    ensures d == 0 ==> (Diff(LowHalf(s), e) == LowHalf(t) <==> e == 0)
    ensures d == 0x89 ==> (Diff(LowHalf(s), e) == LowHalf(t) <==> e == 0xA1)
  {
    FormulaHighByte(d);
  }

  /** The last covered byte changed from `x` to `y` and the stored low byte changed by `e`: the checksum
      still fits in exactly one non-trivial case. */
  lemma Straddle(c: word, x: octet, y: octet, e: octet)
    ensures HighHalf(OctetStep(c, x)) == HighHalf(OctetStep(c, y))
            && Diff(LowHalf(OctetStep(c, x)), e) == LowHalf(OctetStep(c, y))
            <==> (Diff(x, y) == 0 && e == 0) || (Diff(x, y) == 0x89 && e == 0xA1)
  {
    hide OctetStep, Formula, HighHalf, LowHalf, XorWords, Entry, Diff;
    StepDifference(c, x, y);
    EntryFormula(Diff(x, y));
    HalvesOfDifference(OctetStep(c, x), OctetStep(c, y), Diff(x, y), e);
  }

  lemma WordBytesAre(w: word)
    ensures Octet(WordBytes(w)[0]) == LowHalf(w) && Octet(WordBytes(w)[1]) == HighHalf(w)
  {
    OctetInverse(LowHalf(w));
    OctetInverse(HighHalf(w));
  }

  lemma OctetInjective(x: byte, y: byte)
    ensures Octet(x) == Octet(y) <==> x == y
  {
    assert Octet(x) as nat == x && Octet(y) as nat == y;
  }

  lemma XorRecovers(x: octet, y: octet)
    ensures Diff(x, Diff(x, y)) == y
    ensures Diff(x, y) == 0 <==> x == y
  {
  }

  lemma LastByte(p: seq<byte>, x: byte)
    ensures Crc16(p + [x]) == OctetStep(Crc16(p), Octet(x))
  {
    FoldAppend(TableStep, INIT, p, [x]);
  }

  lemma PairsEqual(a: byte, b: byte, s: seq<byte>)
    requires |s| == 2
    ensures [a, b] == s <==> Octet(a) == Octet(s[0]) && Octet(b) == Octet(s[1])
  {
    OctetInjective(a, s[0]);
    OctetInjective(b, s[1]);
  }

  /** The stored bytes `[lo, hi]` match word `t`, where `hi` is the stored high byte of `s`. */
  lemma StoredMatches(s: word, t: word, lo: byte)
    ensures [lo, WordBytes(s)[1]] == WordBytes(t) <==>
            HighHalf(s) == HighHalf(t) && Diff(LowHalf(s), Diff(Octet(WordBytes(s)[0]), Octet(lo))) == LowHalf(t)
  {
    hide WordBytes, Octet, LowHalf, HighHalf, Diff;
    WordBytesAre(s);
    WordBytesAre(t);
    XorRecovers(LowHalf(s), Octet(lo));
    PairsEqual(lo, WordBytes(s)[1], WordBytes(t));
  }

  /** Corruption across the border between the last data byte and the stored low byte passes the check in
      exactly one case: the data byte changed by 0x89 and the checksum byte by 0xA1. */
  lemma StraddlingCorruptionExactly(p: seq<byte>, x: byte, y: byte, lo: byte)
    ensures var stored := WordBytes(Crc16(p + [x]));
            CrcAccepts(p + [y] + [lo, stored[1]]) <==>
            || (y == x && lo == stored[0])
            || (Diff(Octet(x), Octet(y)) == 0x89 && Diff(Octet(stored[0]), Octet(lo)) == 0xA1)
  {
    hide OctetStep, WordBytes, Octet, LowHalf, HighHalf, Crc16, Diff;
    var s, t := Crc16(p + [x]), Crc16(p + [y]);
    AcceptsLast(p + [y], lo, WordBytes(s)[1]);
    LastByte(p, x);
    LastByte(p, y);
    StoredMatches(s, t, lo);
    Straddle(Crc16(p), Octet(x), Octet(y), Diff(Octet(WordBytes(s)[0]), Octet(lo)));
    DifferenceZero(x, y);
    DifferenceZero(WordBytes(s)[0], lo);
  }

  lemma AcceptsLast(d: seq<byte>, a: byte, b: byte)
    ensures CrcAccepts(d + [a, b]) <==> [a, b] == WordBytes(Crc16(d))
  {
    var w := d + [a, b];
    assert w[|w| - 2..] == [a, b] && w[..|w| - 2] == d;
  }

  lemma DifferenceZero(x: byte, y: byte)
    ensures Diff(Octet(x), Octet(y)) == 0 <==> x == y
  {
    XorRecovers(Octet(x), Octet(y));
    OctetInjective(x, y);
  }

  function CustomFace(seqNo: u16, data: seq<byte>): Frame
    requires |data| <= 255
  {
    Frame(VERSION, seqNo, [Commands.FaceCustom(data)])
  }

  /** So the restriction to one side of that border is needed: these two frames are both valid, and their
      encodings differ only in the last data byte and the low checksum byte. */
  lemma StraddlingCorruptionExists(seqNo: u16, d: seq<byte>)
    requires |d| <= 254
    ensures var f, g := CustomFace(seqNo, d + [0]), CustomFace(seqNo, d + [0x89]);
            && TotalLen(f) == TotalLen(g) <= MAX_FRAME_LEN && f != g
            && DifferOnlyAt(Encoded(f), Encoded(g), TotalLen(f) - 3)
            && Decoded(Encoded(f)) == Ok((f, TotalLen(f))) && Decoded(Encoded(g)) == Ok((g, TotalLen(g)))
  {
    var f, g := CustomFace(seqNo, d + [0]), CustomFace(seqNo, d + [0x89]);
    assert (d + [0])[|d|] != (d + [0x89])[|d|];
    FaceBody(seqNo, d, 0);
    FaceBody(seqNo, d, 0x89);
    var p := FacePrefix(seqNo, d);
    SameHighByte(p);
    RoundTripExactly(f);
    RoundTripExactly(g);
  }

  function FacePrefix(seqNo: u16, d: seq<byte>): seq<byte>
    requires |d| <= 254
  {
    Header(CustomFace(seqNo, d + [0])) + LE16(0x0205) + [|d| + 1] + d
  }

  lemma FaceBody(seqNo: u16, d: seq<byte>, x: byte)
    requires |d| <= 254
    ensures Body(CustomFace(seqNo, d + [x])) == FacePrefix(seqNo, d) + [x]
    ensures TotalLen(CustomFace(seqNo, d + [x])) == |d| + 14
  {
    var f := CustomFace(seqNo, d + [x]);
    assert f.commands[1..] == [];
    assert CommandsLen(f.commands[1..]) == 0;
    assert CommandsBytes(f.commands) == LE16(0x0205) + [|d| + 1] + (d + [x]);
    assert Header(f) == Header(CustomFace(seqNo, d + [0])) by {
      var g := CustomFace(seqNo, d + [0]);
      assert g.commands[1..] == [];
      assert CommandsLen(g.commands[1..]) == 0;
    }
  }

  lemma SameHighByte(p: seq<byte>)
    ensures WordBytes(Crc16(p + [0]))[1] == WordBytes(Crc16(p + [0x89]))[1]
  {
    var s, t := Crc16(p + [0]), Crc16(p + [0x89]);
    LastByte(p, 0);
    LastByte(p, 0x89);
    FirstOctets();
    StepDifference(Crc16(p), Octet(0), Octet(0x89));
    EntryFormula(0x89);
    HalvesOfDifference(s, t, 0x89, 0);
    WordBytesAre(s);
    WordBytesAre(t);
  }

  lemma FirstOctets()
    ensures Octet(0) == 0 && Octet(0x89) == 0x89 && Diff(Octet(0), Octet(0x89)) == 0x89
  {
    OctetByNumber(Octet(0x89), 0x89);
  }

  // ---------- The residue over a whole frame ----------

  function Join(high: octet, low: octet): word {
    Upper(high) ^ (low as word)
  }

  /** Checking the checksum over data and stored checksum together. */
  lemma ResidueOfStored(data: seq<byte>, a: byte, b: byte)
    ensures Crc16(data + [a, b]) == 0 <==> Crc16(data) == Join(Octet(a), Octet(b))
  {
    hide OctetBits, Join, XorWords, Crc16From;
    var c := Crc16(data);
    var bits := OctetBits(Octet(a)) + OctetBits(Octet(b));
    SeedContinues(data, [a, b]);
    TableIsDivision(c, [a, b]);
    PairBits(a, b);
    PreloadDivision(c, bits);
    ZerosKeepNonZero(XorWords(c, Align(bits)), 16);
    AlignPair(Octet(a), Octet(b));
    WordsDiffer(c, Align(bits));
  }

  lemma WordsDiffer(x: word, y: word)
    ensures XorWords(x, y) == 0 <==> x == y
  {
    XorZero(x, y);
  }

  lemma PairBits(a: byte, b: byte)
    ensures Bits([a, b]) == OctetBits(Octet(a)) + OctetBits(Octet(b))
  {
    hide OctetBits;
    assert FlatMap(ByteBits, [b][1..]) == [];
    assert Bits([b]) == ByteBits(b) + [];
    assert [a, b][1..] == [b];
    assert Bits([a, b]) == ByteBits(a) + Bits([b]);
  }

  function ShiftDown(v: word, n: nat): word {
    if n == 0 then v else ShiftDown(v, n - 1) >> 1
  }

  lemma PushXor(x: bit, a: word, d: word)
    ensures Top(x) ^ ((a ^ d) >> 1) == (Top(x) ^ (a >> 1)) ^ (d >> 1)
  {
  }

  lemma PushXorWords(x: bit, a: word, d: word)
    ensures PushBit(x, XorWords(a, d)) == XorWords(PushBit(x, a), d >> 1)
  {
    PushXor(x, a, d);
    hide Top;
  }

  lemma {:induction false} AlignAppend(s: seq<bit>, t: seq<bit>)
    ensures Align(s + t) == XorWords(Align(s), ShiftDown(Align(t), |s|))
  {
    hide XorWords, PushBit;
    if s == [] {
      assert s + t == t;
      XorNothing(Align(t));
    } else {
      assert (s + t)[1..] == s[1..] + t;
      AlignAppend(s[1..], t);
      PushXorWords(s[0], Align(s[1..]), ShiftDown(Align(t), |s| - 1));
    }
  }

  lemma XorNothing(v: word)
    ensures XorWords(0, v) == v
  {
  }

  lemma ShiftDownUpper(b: octet)
    ensures ShiftDown(Upper(b), 8) == b as word
  {
    var v := Upper(b);
    assert ShiftDown(v, 1) == v >> 1;
    assert ShiftDown(v, 2) == v >> 2;
    assert ShiftDown(v, 3) == v >> 3;
    assert ShiftDown(v, 4) == v >> 4;
    assert ShiftDown(v, 5) == v >> 5;
    assert ShiftDown(v, 6) == v >> 6;
    assert ShiftDown(v, 7) == v >> 7;
    assert ShiftDown(v, 8) == v >> 8;
  }

  lemma AlignPair(a: octet, b: octet)
    ensures Align(OctetBits(a) + OctetBits(b)) == Join(a, b)
  {
    AlignAppend(OctetBits(a), OctetBits(b));
    AlignByte(a);
    AlignByte(b);
    ShiftDownUpper(b);
  }

  lemma JoinHalves(w: word)
    ensures Join(HighHalf(w), LowHalf(w)) == w
    ensures Join(LowHalf(w), HighHalf(w)) == w <==> HighHalf(w) == LowHalf(w)
  {
  }

  /** High byte first, the checksum of data and stored checksum is always zero. */
  lemma HighFirstResidue(data: seq<byte>)
    ensures var s := WordBytes(Crc16(data)); Crc16(data + [s[1], s[0]]) == 0
  {
    var c := Crc16(data);
    ResidueOfStored(data, WordBytes(c)[1], WordBytes(c)[0]);
    WordBytesAre(c);
    JoinHalves(c);
  }

  /** Stored low byte first, as frames are, it is zero only if the two stored bytes are equal. */
  lemma StoredResidueExactly(data: seq<byte>)
    ensures var s := WordBytes(Crc16(data)); Crc16(data + s) == 0 <==> s[0] == s[1]
  {
    var c := Crc16(data);
    var s := WordBytes(c);
    assert data + s == data + [s[0], s[1]];
    ResidueOfStored(data, s[0], s[1]);
    WordBytesAre(c);
    JoinHalves(c);
    OctetInjective(s[0], s[1]);
  }

  /** A message for which it does not hold: the single byte 0 has checksum 0xE1F0. */
  lemma StoredResidueFails()
    ensures Crc16([0]) == 0xE1F0
    ensures Crc16([0] + WordBytes(Crc16([0]))) != 0
  {
    ChecksumOfZero();
    StoredResidueExactly([0]);
    assert WordBytes(0xE1F0) == [0xF0, 0xE1];
  }

  lemma ChecksumOfZero()
    ensures Crc16([0]) == 0xE1F0
  {
    var o := Octet(0);
    assert o == 0;
    EntryOfAllOnes();
    assert [0][1..] == [];
    assert Crc16([0]) == TableStep(INIT, 0);
  }

  lemma EntryOfAllOnes()
    ensures Entry(0xFF) == 0x1EF0
  {
  }
}
