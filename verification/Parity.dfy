/** The generator is divisible by x + 1, so the checksum finds every odd number of flipped bits, wherever they are. */
module Parity {
  import opened Bytes
  import opened Folds
  import opened Crc
  import opened Codec
  import opened Corruption
  import opened LongDivision

  /** The sum of the bits over GF(2). */
  function ParityOf(bits: seq<bit>): bit {
    Fold(XorBit, 0, bits)
  }

  /** In how many places two bit strings differ. */
  function Distance(a: seq<bit>, b: seq<bit>): nat
    requires |a| == |b|
  {
    if a == [] then 0 else (if a[0] == b[0] then 0 else 1) + Distance(a[1..], b[1..])
  }

  lemma FlipOne(p: bit, q: bit, x: bit, y: bit)
    ensures XorBit(p, x) == XorBit(q, y) <==> (p == q <==> x == y)
  {
  }

  lemma {:induction false} ParityFrom(p: bit, q: bit, a: seq<bit>, b: seq<bit>)
    requires |a| == |b|
    ensures Fold(XorBit, p, a) == Fold(XorBit, q, b) <==> (p == q <==> Distance(a, b) % 2 == 0)
    decreases |a|
  {
    hide XorBit;
    if a != [] {
      FlipOne(p, q, a[0], b[0]);
      ParityFrom(XorBit(p, a[0]), XorBit(q, b[0]), a[1..], b[1..]);
    }
  }

  /** Parities differ exactly when an odd number of bits does. */
  lemma ParityCounts(a: seq<bit>, b: seq<bit>)
    requires |a| == |b|
    ensures ParityOf(a) != ParityOf(b) <==> Distance(a, b) % 2 == 1
  {
    ParityFrom(0, 0, a, b);
  }

  lemma {:induction false} ParityShift(p: bit, bits: seq<bit>)
    ensures Fold(XorBit, p, bits) == XorBit(p, ParityOf(bits))
    decreases |bits|
  {
    hide XorBit;
    XorFacts(p, 0, 0);
    if bits != [] {
      XorFacts(0, bits[0], 0);
      XorFacts(p, bits[0], ParityOf(bits[1..]));
      ParityShift(XorBit(p, bits[0]), bits[1..]);
      ParityShift(XorBit(0, bits[0]), bits[1..]);
    }
  }

  lemma XorFacts(x: bit, y: bit, z: bit)
    ensures XorBit(XorBit(x, y), z) == XorBit(x, XorBit(y, z))
    ensures XorBit(x, y) == XorBit(y, x) && XorBit(x, 0) == x && XorBit(x, x) == 0
  {
  }

  lemma ParityAppend(a: seq<bit>, b: seq<bit>)
    ensures ParityOf(a + b) == XorBit(ParityOf(a), ParityOf(b))
  {
    hide XorBit;
    FoldAppend(XorBit, 0, a, b);
    ParityShift(ParityOf(a), b);
  }

  lemma ParityOne(x: bit)
    ensures ParityOf([x]) == x
  {
    XorFacts(0, x, 0);
    XorFacts(x, 0, 0);
    assert [x][1..] == [];
    assert Fold(XorBit, XorBit(0, x), [x][1..]) == XorBit(0, x);
  }

  /** The parity of a sum is the sum of the parities. */
  lemma ParitySum(a: seq<bit>, b: seq<bit>)
    requires |a| == |b|
    ensures ParityOf(Xor(a, b)) == XorBit(ParityOf(a), ParityOf(b))
  {
    XorIsLinear();
    XorFacts(0, 0, 0);
    FoldLinear(XorBit, XorBit, XorBit, 0, 0, a, b);
  }

  lemma XorIsLinear()
    ensures Linear(XorBit, XorBit, XorBit)
  {
    forall r, t, x, y ensures XorBit(XorBit(r, t), XorBit(x, y)) == XorBit(XorBit(r, x), XorBit(t, y)) {
      Regroup(r, t, x, y);
    }
  }

  lemma Regroup(r: bit, t: bit, x: bit, y: bit)
    ensures XorBit(XorBit(r, t), XorBit(x, y)) == XorBit(XorBit(r, x), XorBit(t, y))
  {
  }

  // ---------- Registers ----------

  function Par(r: word): bit {
    ParityOf(WordBits(r))
  }

  lemma GeneratorIsOdd()
    ensures ParityOf(GENERATOR) == 1
  {
    var zeros, one := [0, 0, 0, 1, 0, 0, 0, 0], [0, 0, 1, 0, 0, 0, 0, 1];
    assert GENERATOR == zeros + one;
    ParityAppend(zeros, one);
    ParityEight(zeros);
    ParityEight(one);
  }

  lemma ParityEight(s: seq<bit>)
    requires |s| == 8
    ensures ParityOf(s) == s[0] ^ s[1] ^ s[2] ^ s[3] ^ s[4] ^ s[5] ^ s[6] ^ s[7]
  {
    var a, b := s[..4], s[4..];
    assert s == a + b;
    ParityAppend(a, b);
    ParityFour(a);
    ParityFour(b);
    SumEight(s[0], s[1], s[2], s[3], s[4], s[5], s[6], s[7]);
  }

  lemma SumEight(a: bit, b: bit, c: bit, d: bit, e: bit, f: bit, g: bit, h: bit)
    ensures XorBit(a ^ b ^ c ^ d, e ^ f ^ g ^ h) == a ^ b ^ c ^ d ^ e ^ f ^ g ^ h
  {
  }

  lemma ParityFour(s: seq<bit>)
    requires |s| == 4
    ensures ParityOf(s) == s[0] ^ s[1] ^ s[2] ^ s[3]
  {
    assert s == [s[0]] + ([s[1]] + ([s[2]] + [s[3]]));
    ParityAppend([s[0]], [s[1]] + ([s[2]] + [s[3]]));
    ParityAppend([s[1]], [s[2]] + [s[3]]);
    ParityAppend([s[2]], [s[3]]);
    ParityOne(s[0]);
    ParityOne(s[1]);
    ParityOne(s[2]);
    ParityOne(s[3]);
    SumFour(s[0], s[1], s[2], s[3]);
    hide ParityOf, XorBit;
  }

  lemma SumFour(a: bit, b: bit, c: bit, d: bit)
    ensures XorBit(a, XorBit(b, XorBit(c, d))) == a ^ b ^ c ^ d
  {
  }

  /** Reducing by the generator keeps parity, so a step adds the parity of the bit it takes in. */
  lemma StepParity(r: word, b: bit)
    ensures Par(Step(r, b)) == XorBit(Par(r), b)
  {
    hide Step, WordBits, ParityOf, Xor;
    var w := WordBits(r);
    var top, rest := w[0], ParityOf(w[1..]);
    StepBits(r, b);
    GeneratorIsOdd();
    ParitySum(Doubled(r), GENERATOR);
    assert w == [top] + w[1..];
    ParityAppend([top], w[1..]);
    ParityAppend(w[1..], [0]);
    ParityOne(top);
    ParityOne(0);
    StepSum(top, rest, b);
  }

  lemma StepSum(top: bit, rest: bit, b: bit)
    ensures (top ^ b) == 1 ==> XorBit(XorBit(rest, 0), 1) == XorBit(XorBit(top, rest), b)
    ensures (top ^ b) != 1 ==> XorBit(rest, 0) == XorBit(XorBit(top, rest), b)
  {
  }

  lemma {:induction false} DivideParity(r: word, bits: seq<bit>)
    ensures Par(Divide(r, bits)) == Fold(XorBit, Par(r), bits)
    decreases |bits|
  {
    hide Par, Step, XorBit;
    if bits != [] {
      StepParity(r, bits[0]);
      DivideParity(Step(r, bits[0]), bits[1..]);
    }
  }

  lemma InitIsEven()
    ensures Par(INIT) == 0
  {
    var high, low := WordBits(INIT)[..8], WordBits(INIT)[8..];
    assert WordBits(INIT) == high + low;
    assert high == Repeat(1, 8) && low == Repeat(1, 8);
    ParityAppend(high, low);
    XorFacts(ParityOf(high), 0, 0);
  }

  /** The checksum has the parity of its message. */
  lemma ChecksumParity(data: seq<byte>)
    ensures Par(Crc16(data)) == ParityOf(Bits(data))
  {
    hide Par, Bits, Divide;
    TableIsDivision(INIT, data);
    DivideParity(INIT, Bits(data));
    InitIsEven();
  }

  /** How many bits must be flipped to make one message the other. */
  function FlippedBits(a: seq<byte>, b: seq<byte>): nat
    requires |a| == |b|
  {
    BitsLength(a);
    BitsLength(b);
    Distance(Bits(a), Bits(b))
  }

  lemma FlipsCount(a: seq<byte>, b: seq<byte>)
    requires |a| == |b|
    ensures ParityOf(Bits(a)) != ParityOf(Bits(b)) <==> FlippedBits(a, b) % 2 == 1
  {
    hide ParityOf, Distance, Bits;
    BitsLength(a);
    BitsLength(b);
    ParityCounts(Bits(a), Bits(b));
  }

  /** Messages that differ in an odd number of bits, however spread out, never share a checksum. */
  lemma OddDamageDetected(a: seq<byte>, b: seq<byte>)
    requires |a| == |b| && FlippedBits(a, b) % 2 == 1
    ensures Crc16(a) != Crc16(b)
  {
    hide Par, ParityOf, FlippedBits, Bits, Crc16;
    ChecksumParity(a);
    ChecksumParity(b);
    FlipsCount(a, b);
  }

  // ---------- Whole frames ----------

  lemma {:induction false} BitsAppend(a: seq<byte>, b: seq<byte>)
    ensures Bits(a + b) == Bits(a) + Bits(b)
    decreases |a|
  {
    hide ByteBits;
    if a == [] {
      assert a + b == b;
    } else {
      assert (a + b)[1..] == a[1..] + b;
      BitsAppend(a[1..], b);
    }
  }

  lemma HighBits(w: word)
    ensures WordBits(w)[..8] == OctetBits(HighHalf(w))
  {
  }

  lemma LowBits(w: word)
    ensures WordBits(w)[8..] == OctetBits(LowHalf(w))
  {
  }

  /** The stored checksum has the parity of the register, in whichever order its bytes are stored. */
  lemma StoredParity(w: word)
    ensures ParityOf(Bits(WordBytes(w))) == Par(w)
  {
    hide WordBytes, OctetBits, WordBits, ParityOf, XorBit;
    var s := WordBytes(w);
    assert s == [s[0], s[1]];
    PairBits(s[0], s[1]);
    WordBytesAre(w);
    HighBits(w);
    LowBits(w);
    var low, high := OctetBits(LowHalf(w)), OctetBits(HighHalf(w));
    assert WordBits(w) == WordBits(w)[..8] + WordBits(w)[8..];
    ParityAppend(low, high);
    ParityAppend(high, low);
    XorFacts(ParityOf(low), ParityOf(high), 0);
  }

  lemma ChecksummedIsEven(body: seq<byte>)
    ensures ParityOf(Bits(body + WordBytes(Crc16(body)))) == 0
  {
    hide ParityOf, Par, Bits, WordBytes, Crc16;
    var stored := WordBytes(Crc16(body));
    BitsAppend(body, stored);
    ParityAppend(Bits(body), Bits(stored));
    StoredParity(Crc16(body));
    ChecksumParity(body);
    XorFacts(ParityOf(Bits(body)), 0, 0);
  }

  /** Every frame that decodes has an even number of one bits, its checksum included. */
  lemma DecodedIsEven(buf: seq<byte>)
    requires Decoded(buf).Ok?
    ensures Decoded(buf).value.1 <= |buf| && ParityOf(Bits(buf[..Decoded(buf).value.1])) == 0
  {
    hide ParityOf, Par, Bits, WordBytes, Crc16, ParseCommands;
    var w := buf[..Decoded(buf).value.1];
    var body, stored := w[..|w| - CRC_LEN], w[|w| - CRC_LEN..];
    assert w == body + stored && stored == WordBytes(Crc16(body));
    ChecksummedIsEven(body);
  }

  /** Damage to an odd number of bits of an encoded frame is rejected wherever it is, the border to the checksum
      included, unless it changes how many bytes are looked at. */
  lemma OddCorruptionRejected(f: Frame, w: seq<byte>)
    requires TotalLen(f) <= MAX_FRAME_LEN && |w| == TotalLen(f) && w[2..4] == Encoded(f)[2..4]
    requires FlippedBits(w, Encoded(f)) % 2 == 1
    ensures Decoded(w).Err?
  {
    hide ParityOf, Bits, FlippedBits, DecodeWhole, Body, WordBytes, Crc16;
    var v := Encoded(f);
    ChecksummedIsEven(Body(f));
    FlipsCount(w, v);
    HeaderFields(f);
    hide Encoded;
    assert w[2] == w[2..4][0] == v[2..4][0] == v[2] && w[3] == w[2..4][1] == v[2..4][1] == v[3];
    if Decoded(w).Ok? {
      DecodedIsEven(w);
      assert w[..|w|] == w;
    }
  }
}
