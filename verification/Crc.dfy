/** CRC-16 with generator x^16 + x^12 + x^5 + 1 (section 2 of ITU-T V.41), initial value 0xFFFF. */
module Crc {
  import opened Bytes
  import opened Folds

  type bit = bv1
  type octet = bv8
  type word = bv16

  const INIT: word := 0xFFFF

  // ---------- Bytes as bit patterns ----------

  lemma OctetSuccessor(o: octet)
    requires o < 255
    ensures (o + 1) as nat == o as nat + 1
  {
  }

  /** The bit pattern of a byte. */
  function Octet(b: byte): (o: octet)
    ensures o as nat == b
  {
    if b == 0 then 0 else
      OctetSuccessor(Octet(b - 1));
      Octet(b - 1) + 1
  }

  lemma OctetByNumber(x: octet, y: octet)
    requires x as nat == y as nat
    ensures x == y
  {
  }

  lemma OctetInverse(o: octet)
    ensures o as nat < 0x100 && Octet(o as nat) == o
  {
    OctetByNumber(Octet(o as nat), o);
  }

  // ---------- Bit-serial division: the reference ----------

  /** Multiply the register by x and reduce: a bit leaving at the top is x^16, which is
      x^12 + x^5 + 1 modulo the generator. */
  function Shift(r: word): word {
    var top := r >> 15;
    (r << 1) ^ (top << 12) ^ (top << 5) ^ top
  }

  /** A byte in the upper half of a register. */
  function Upper(b: octet): word {
    (b as word) << 8
  }

  function Top(b: bit): word {
    (b as word) << 15
  }

  /** One message bit enters the division register at the top. */
  function Step(r: word, b: bit): word {
    Shift(r ^ Top(b))
  }

  /** The bits of a byte, most significant first. */
  function OctetBits(b: octet): (s: seq<bit>)
    ensures |s| == 8
  {
    [(b >> 7) as bit, ((b >> 6) & 1) as bit, ((b >> 5) & 1) as bit, ((b >> 4) & 1) as bit,
     ((b >> 3) & 1) as bit, ((b >> 2) & 1) as bit, ((b >> 1) & 1) as bit, (b & 1) as bit]
  }

  function ByteBits(b: byte): (s: seq<bit>)
    ensures |s| == 8
  {
    OctetBits(Octet(b))
  }

  function Bits(data: seq<byte>): seq<bit> {
    FlatMap(ByteBits, data)
  }

  /** The remainder of the message, most significant bit first, from register `r`. */
  function Divide(r: word, bits: seq<bit>): word {
    Fold(Step, r, bits)
  }

  // ---------- The table-driven form ----------

  function ShiftTimes(r: word, n: nat): word {
    if n == 0 then r else Shift(ShiftTimes(r, n - 1))
  }

  /** What the table holds at index `i`. */
  function Entry(i: octet): word {
    ShiftTimes(Upper(i), 8)
  }

  const CRC_TABLE: seq<word> := seq(256, i requires 0 <= i < 256 => Entry(Octet(i)))

  function XorWords(x: word, y: word): word {
    x ^ y
  }

  /** `crc << 8`. */
  function Times256(r: word): word {
    r << 8
  }

  function Index(r: word, b: octet): octet {
    ((r >> 8) as octet) ^ b
  }

  function OctetStep(r: word, b: octet): word {
    XorWords(Times256(r), Entry(Index(r, b)))
  }

  function TableStep(r: word, b: byte): word {
    OctetStep(r, Octet(b))
  }

  /** The checksum of `data` continued from `seed`. */
  function Crc16From(seed: word, data: seq<byte>): word {
    Fold(TableStep, seed, data)
  }

  function Crc16(data: seq<byte>): word {
    Crc16From(INIT, data)
  }

  lemma TableAt(b: octet)
    ensures |CRC_TABLE| == 256 && CRC_TABLE[b as nat] == Entry(b)
  {
    OctetInverse(b);
  }

  lemma ShiftBranches(r: word)
    ensures r & 0x8000 != 0 ==> Shift(r) == (r << 1) ^ 0x1021
    ensures r & 0x8000 == 0 ==> Shift(r) == r << 1
  {
    if r & 0x8000 != 0 {
      assert r >> 15 == 1;
    } else {
      assert r >> 15 == 0;
    }
  }

  /** The inner loop of the table generator. */
  method TableEntry(i: octet) returns (crc: word)
    ensures crc == Entry(i)
  {
    crc := (i as word) << 8;
    var j := 0;
    while j < 8
      invariant 0 <= j <= 8
      invariant crc == ShiftTimes(Upper(i), j)
    {
      ShiftBranches(crc);
      if crc & 0x8000 != 0 {
        crc := (crc << 1) ^ 0x1021;
      } else {
        crc := crc << 1;
      }
      j := j + 1;
    }
  }

  /** The outer loop: the generated table is the table of the specification. */
  method MakeTable() returns (table: array<word>)
    ensures fresh(table) && table[..] == CRC_TABLE
  {
    table := new word[256](_ => 0);
    var i := 0;
    while i < 256
      invariant 0 <= i <= 256
      invariant table.Length == 256 && fresh(table)
      invariant forall k :: 0 <= k < i ==> table[k] == Entry(Octet(k))
    {
      var crc := TableEntry(Octet(i));
      table[i] := crc;
      i := i + 1;
    }
  }

  /** The loop over the message; the result is the remainder of bit-serial division. */
  method Compute(data: seq<byte>, seed: word) returns (crc: word)
    ensures crc == Crc16From(seed, data) == Divide(seed, Bits(data))
  {
    crc := seed;
    for k := 0 to |data|
      invariant crc == Crc16From(seed, data[..k])
    {
      var idx := Index(crc, Octet(data[k]));
      TableAt(idx);
      AppendByte(seed, data, k);
      crc := (crc << 8) ^ CRC_TABLE[idx as nat];
    }
    assert data[..|data|] == data;
    TableIsDivision(seed, data);
  }

  lemma AppendByte(seed: word, data: seq<byte>, k: nat)
    requires k < |data|
    ensures Crc16From(seed, data[..k + 1]) == TableStep(Crc16From(seed, data[..k]), data[k])
  {
    assert data[..k + 1] == data[..k] + [data[k]];
    FoldAppend(TableStep, seed, data[..k], [data[k]]);
  }

  /** Seeding with the checksum of `a` and continuing over `b` gives the checksum of `a + b`. */
  lemma SeedContinues(a: seq<byte>, b: seq<byte>)
    ensures Crc16From(Crc16(a), b) == Crc16(a + b)
  {
    FoldAppend(TableStep, INIT, a, b);
  }

  // ---------- The table form refines division ----------

  lemma ShiftLinear(r: word, t: word)
    ensures Shift(r ^ t) == Shift(r) ^ Shift(t)
  {
  }

  lemma ShiftXor(r: word, t: word)
    ensures Shift(XorWords(r, t)) == XorWords(Shift(r), Shift(t))
  {
    ShiftLinear(r, t);
    hide Shift;
  }

  lemma {:induction false} ShiftTimesLinear(r: word, t: word, n: nat)
    ensures ShiftTimes(XorWords(r, t), n) == XorWords(ShiftTimes(r, n), ShiftTimes(t, n))
  {
    hide XorWords, Shift;
    if n > 0 {
      ShiftTimesLinear(r, t, n - 1);
      ShiftXor(ShiftTimes(r, n - 1), ShiftTimes(t, n - 1));
    }
  }

  lemma {:induction false} DivideZeros(r: word, n: nat)
    ensures Divide(r, Repeat(0, n)) == ShiftTimes(r, n)
    decreases n
  {
    if n > 0 {
      assert Repeat<bit>(0, n) == Repeat(0, n - 1) + [0];
      FoldAppend(Step, r, Repeat(0, n - 1), [0]);
      DivideZeros(r, n - 1);
      StepZero(ShiftTimes(r, n - 1));
    }
  }

  lemma StepZero(r: word)
    ensures Step(r, 0) == Shift(r)
  {
  }

  function PushBit(x: bit, v: word): word {
    Top(x) ^ (v >> 1)
  }

  /** The window `w` left-aligned in a register. */
  function Align(w: seq<bit>): word {
    FoldRight(PushBit, 0, w)
  }

  lemma PushByte(b: octet, s: seq<bit>)
    requires s == OctetBits(b)
    ensures PushBit(s[0], PushBit(s[1], PushBit(s[2], PushBit(s[3],
              PushBit(s[4], PushBit(s[5], PushBit(s[6], PushBit(s[7], 0)))))))) == Upper(b)
  {
  }

  lemma AlignEight(s: seq<bit>)
    requires |s| == 8
    ensures Align(s) == PushBit(s[0], PushBit(s[1], PushBit(s[2], PushBit(s[3],
                          PushBit(s[4], PushBit(s[5], PushBit(s[6], PushBit(s[7], 0))))))))
  {
    FoldRightEight(PushBit, 0, s);
  }

  lemma AlignByte(b: octet)
    ensures Align(OctetBits(b)) == Upper(b)
  {
    AlignEight(OctetBits(b));
    PushByte(b, OctetBits(b));
  }

  lemma ShiftFour(b: octet)
    ensures ShiftTimes(b as word, 4) == (b as word) << 4
  {
    var x := b as word;
    assert ShiftTimes(x, 1) == Shift(x) == x << 1;
    assert ShiftTimes(x, 2) == Shift(x << 1) == x << 2;
    assert ShiftTimes(x, 3) == Shift(x << 2) == x << 3;
    assert ShiftTimes(x, 4) == Shift(x << 3) == x << 4;
  }

  lemma ShiftFourMore(b: octet, x: word)
    requires x == (b as word) << 4
    ensures ShiftTimes(x, 4) == Upper(b)
  {
    assert ShiftTimes(x, 1) == Shift(x) == x << 1;
    assert ShiftTimes(x, 2) == Shift(x << 1) == x << 2;
    assert ShiftTimes(x, 3) == Shift(x << 2) == x << 3;
    assert ShiftTimes(x, 4) == Shift(x << 3) == x << 4;
  }

  lemma {:induction false} ShiftMore(x: word, m: nat, n: nat)
    ensures ShiftTimes(x, m + n) == ShiftTimes(ShiftTimes(x, m), n)
  {
    if n > 0 {
      ShiftMore(x, m, n - 1);
    }
  }

  lemma ShiftLowByte(b: octet)
    ensures ShiftTimes(b as word, 8) == Upper(b)
  {
    var x := b as word;
    ShiftFour(b);
    ShiftFourMore(b, x << 4);
    ShiftMore(x, 4, 4);
  }

  /** The register with a byte entering at the top, split into table index and low byte. */
  lemma SplitRegister(r: word, b: octet, lo: octet)
    requires lo == (r & 0xFF) as octet
    ensures r ^ Upper(b) == Upper(Index(r, b)) ^ (lo as word)
    ensures (lo as word) << 8 == Times256(r)
  {
  }

  lemma XorSwap(x: word, y: word)
    ensures x ^ y == y ^ x
  {
  }

  lemma ShiftSum(x: word, hi: word, lo: word, lo8: word, n: nat)
    requires x == XorWords(hi, lo) && ShiftTimes(lo, n) == lo8
    ensures ShiftTimes(x, n) == XorWords(lo8, ShiftTimes(hi, n))
  {
    ShiftTimesLinear(hi, lo, n);
    XorSwap(ShiftTimes(hi, n), lo8);
  }

  lemma EightShifts(r: word, b: octet)
    ensures ShiftTimes(XorWords(r, Upper(b)), 8) == OctetStep(r, b)
  {
    var lo := (r & 0xFF) as octet;
    SplitRegister(r, b, lo);
    ShiftLowByte(lo);
    ShiftSum(XorWords(r, Upper(b)), Upper(Index(r, b)), lo as word, Times256(r), 8);
  }

  lemma OctetStepIsDivision(r: word, b: octet)
    ensures OctetStep(r, b) == Divide(r, OctetBits(b))
  {
    PreloadDivision(r, OctetBits(b));
    AlignByte(b);
    DivideZeros(XorWords(r, Upper(b)), 8);
    EightShifts(r, b);
  }

  /** The table form is bit-serial division, from any register and over any message. */
  lemma TableIsDivision(r: word, data: seq<byte>)
    ensures Crc16From(r, data) == Divide(r, Bits(data))
  {
    forall t, b ensures TableStep(t, b) == Fold(Step, t, ByteBits(b)) {
      OctetStepIsDivision(t, Octet(b));
    }
    FoldRefines(TableStep, Step, ByteBits, r, data);
  }

  // ---------- The table in closed form ----------

  /** Eight shifts at once. */
  function Formula(d: octet): word {
    var x := (d ^ (d >> 4)) as word;
    (x << 12) ^ (x << 5) ^ x
  }

  lemma EightTimes(r: word)
    ensures ShiftTimes(r, 8) == Shift(Shift(Shift(Shift(Shift(Shift(Shift(Shift(r))))))))
  {
    hide Shift;
    ShiftMore(r, 4, 4);
    FourTimes(r);
    FourTimes(ShiftTimes(r, 4));
  }

  lemma FourTimes(r: word)
    ensures ShiftTimes(r, 4) == Shift(Shift(Shift(Shift(r))))
  {
    hide Shift;
    assert ShiftTimes(r, 1) == Shift(r);
    assert ShiftTimes(r, 2) == Shift(Shift(r));
    assert ShiftTimes(r, 3) == Shift(Shift(Shift(r)));
  }

  lemma ShiftFormula(d: octet)
    ensures Shift(Shift(Shift(Shift(Shift(Shift(Shift(Shift(Upper(d))))))))) == Formula(d)
  {
  }

  lemma EntryFormula(d: octet)
    ensures Entry(d) == Formula(d)
  {
    EightTimes(Upper(d));
    ShiftFormula(d);
  }

  // ---------- Linearity and injectivity ----------

  function XorBit(x: bit, y: bit): bit {
    x ^ y
  }

  function Xor(a: seq<bit>, b: seq<bit>): (c: seq<bit>)
    requires |a| == |b|
    ensures |c| == |a|
  {
    Zip(XorBit, a, b)
  }

  lemma StepLinear(r: word, t: word, x: bit, y: bit)
    ensures Step(r ^ t, x ^ y) == Step(r, x) ^ Step(t, y)
  {
    ShiftLinear(r ^ Top(x), t ^ Top(y));
    XorFour(r, t, Top(x), Top(y));
    assert Top(x ^ y) == Top(x) ^ Top(y);
  }

  lemma XorFour(r: word, t: word, x: word, y: word)
    ensures (r ^ t) ^ (x ^ y) == (r ^ x) ^ (t ^ y)
  {
  }

  /** Division is linear over GF(2): remainders of a bitwise sum are the bitwise sum of remainders. */
  lemma DivideLinear(r: word, t: word, a: seq<bit>, b: seq<bit>)
    requires |a| == |b|
    ensures Divide(r ^ t, Xor(a, b)) == Divide(r, a) ^ Divide(t, b)
  {
    forall p, q, x, y ensures Step(XorWords(p, q), XorBit(x, y)) == XorWords(Step(p, x), Step(q, y)) {
      StepLinear(p, q, x, y);
    }
    FoldLinear(Step, XorWords, XorBit, r, t, a, b);
  }

  lemma StepZeroKeepsNonZero(r: word)
    ensures Step(r, 0) == 0 <==> r == 0
  {
  }

  /** Trailing zeros keep a zero remainder zero and a non-zero one non-zero. */
  lemma ZerosKeepNonZero(r: word, n: nat)
    ensures Divide(r, Repeat(0, n)) == 0 <==> r == 0
  {
    forall t ensures Step(t, 0) == 0 <==> t == 0 {
      StepZeroKeepsNonZero(t);
    }
    RepeatKeeps(Step, 0, 0, r, n);
  }

  function LowMask(n: nat): word {
    if n == 0 then 0xFFFF else LowMask(n - 1) >> 1
  }

  lemma LowMaskOdd(n: nat)
    requires n <= 15
    ensures LowMask(n) & 1 == 1
  {
    assert LowMask(4) == 0x0FFF;
    assert LowMask(8) == 0x00FF;
    assert LowMask(12) == 0x000F;
  }

  /** `v` has at most `n` leading bits: the rest of the register is zero. */
  predicate Fits(n: nat, v: word) {
    LowMask(n) & 0x8000 == (if n == 0 then 0x8000 else 0) && v & LowMask(n) == 0
  }

  lemma PushMask(x: bit, v: word, m: word)
    requires v & m == 0
    ensures (m >> 1) & 0x8000 == 0
    ensures (Top(x) ^ (v >> 1)) & (m >> 1) == 0
  {
  }

  lemma PushFits(n: nat, x: bit, v: word)
    requires Fits(n, v)
    ensures Fits(n + 1, PushBit(x, v))
  {
    PushMask(x, v, LowMask(n));
  }

  lemma PushKeepsFits()
    ensures forall n: nat, x, v :: Fits(n, v) ==> Fits(n + 1, PushBit(x, v))
  {
    forall n: nat, x, v | Fits(n, v) ensures Fits(n + 1, PushBit(x, v)) {
      PushFits(n, x, v);
    }
  }

  lemma AlignFits(w: seq<bit>)
    requires |w| <= 15
    ensures Align(w) & 1 == 0
  {
    PushKeepsFits();
    FoldRightKeeps(PushBit, 0, w, Fits);
    LowMaskOdd(|w|);
    MaskedBit(Align(w), LowMask(|w|));
  }

  lemma MaskedBit(v: word, m: word)
    requires v & m == 0 && m & 1 == 1
    ensures v & 1 == 0
  {
  }

  lemma XorAssoc(x: word, y: word, z: word)
    ensures x ^ (y ^ z) == (x ^ y) ^ z
  {
  }

  lemma ShiftBack(v: word)
    requires v & 1 == 0
    ensures Shift(v >> 1) == v
  {
  }

  lemma PreloadStep(r: word, x: bit, v: word)
    requires v & 1 == 0
    ensures Shift(r ^ PushBit(x, v)) == Step(r, x) ^ v
  {
    XorAssoc(r, Top(x), v >> 1);
    ShiftLinear(r ^ Top(x), v >> 1);
    ShiftBack(v);
  }

  lemma PreloadOne(r: word, w: seq<bit>)
    requires 0 < |w| <= 16
    ensures Step(r ^ Align(w), 0) == Step(r, w[0]) ^ Align(w[1..])
  {
    AlignFits(w[1..]);
    PreloadStep(r, w[0], Align(w[1..]));
    StepZero(r ^ Align(w));
  }

  lemma AlignLoads()
    ensures Loads(Step, XorWords, 0, Align, 16)
  {
    forall r ensures XorWords(r, Align([])) == r {
    }
    forall r, w: seq<bit> | 0 < |w| <= 16
      ensures Step(XorWords(r, Align(w)), 0) == XorWords(Step(r, w[0]), Align(w[1..]))
    {
      PreloadOne(r, w);
    }
  }

  /** Clocking in at most 16 bits is the same as preloading them and clocking in zeros. */
  lemma PreloadDivision(r: word, w: seq<bit>)
    requires |w| <= 16
    ensures Fold(Step, r, w) == Fold(Step, XorWords(r, Align(w)), Repeat(0, |w|))
  {
    AlignLoads();
    Preload(Step, XorWords, 0, Align, 16, r, w);
  }

  lemma AlignZeroStep(x: bit, v: word)
    requires v & 1 == 0
    ensures PushBit(x, v) == 0 <==> x == 0 && v == 0
  {
  }

  lemma {:induction false} AlignZero(w: seq<bit>)
    requires |w| <= 16
    ensures Align(w) == 0 <==> w == Repeat(0, |w|)
  {
    if w != [] {
      AlignZero(w[1..]);
      AlignFits(w[1..]);
      AlignZeroStep(w[0], Align(w[1..]));
      assert w == [w[0]] + w[1..];
      assert Repeat<bit>(0, |w|) == [0] + Repeat(0, |w| - 1);
    }
  }

  /** A pattern of at most 16 bits, surrounded by zeros, has remainder zero only if it is zero. */
  lemma BurstRemainder(i: nat, w: seq<bit>, j: nat)
    requires |w| <= 16
    ensures Divide(0, Repeat(0, i) + w + Repeat(0, j)) == 0 <==> w == Repeat(0, |w|)
  {
    FoldAppend(Step, 0, Repeat(0, i) + w, Repeat(0, j));
    FoldAppend(Step, 0, Repeat(0, i), w);
    ZerosKeepNonZero(0, i);
    PreloadDivision(0, w);
    AlignZero(w);
    assert 0 ^ Align(w) == Align(w);
    ZerosKeepNonZero(Align(w), |w|);
    ZerosKeepNonZero(Divide(0, w), j);
  }

  /** The two bit strings agree outside the window of `width` bits at `from`. */
  predicate DifferOnlyIn(a: seq<bit>, b: seq<bit>, from: nat, width: nat) {
    |a| == |b| && forall i :: 0 <= i < |a| && !(from <= i < from + width) ==> a[i] == b[i]
  }

  /** Burst detection: messages of one length that differ only inside 16 consecutive bits share a
      checksum only if they are the same message. */
  lemma BurstDetected(a: seq<byte>, b: seq<byte>, from: nat)
    requires |a| == |b| && DifferOnlyIn(Bits(a), Bits(b), from, 16)
    ensures Crc16(a) == Crc16(b) <==> a == b
  {
    TableIsDivision(INIT, a);
    TableIsDivision(INIT, b);
    BitBurstDetected(INIT, Bits(a), Bits(b), from);
    if Bits(a) == Bits(b) {
      BitsInjective(a, b);
    }
  }

  lemma XorWindow(a: seq<bit>, b: seq<bit>, i: nat, k: nat)
    requires i <= k <= |a| && DifferOnlyIn(a, b, i, k - i)
    ensures Xor(a, b) == Repeat(0, i) + Xor(a, b)[i..k] + Repeat(0, |a| - k)
    ensures Xor(a, b)[i..k] == Repeat(0, k - i) <==> a == b
  {
    var d := Xor(a, b);
    forall n | 0 <= n < |a| ensures d[n] == 0 <==> a[n] == b[n] {
      XorBitZero(a[n], b[n]);
    }
    forall n | 0 <= n < |a| && !(i <= n < k) ensures d[n] == 0 {
    }
    if d[i..k] == Repeat(0, k - i) {
      forall n | 0 <= n < |a| ensures a[n] == b[n] {
        if i <= n < k {
          assert d[i..k][n - i] == d[n];
        }
      }
    }
  }

  lemma XorBitZero(x: bit, y: bit)
    ensures XorBit(x, y) == 0 <==> x == y
  {
  }

  lemma XorZero(x: word, y: word)
    ensures x ^ y == 0 <==> x == y
  {
  }

  lemma BitBurstDetected(r: word, a: seq<bit>, b: seq<bit>, from: nat)
    requires DifferOnlyIn(a, b, from, 16)
    ensures Divide(r, a) == Divide(r, b) <==> a == b
  {
    var i := if from <= |a| then from else |a|;
    var k := if from + 16 <= |a| then from + 16 else |a|;
    XorWindow(a, b, i, k);
    BurstRemainder(i, Xor(a, b)[i..k], |a| - k);
    DivideLinear(r, r, a, b);
    XorZero(r, r);
    XorZero(Divide(r, a), Divide(r, b));
  }

  lemma OctetBitsInjective(x: octet, y: octet)
    requires OctetBits(x) == OctetBits(y)
    ensures x == y
  {
    AlignByte(x);
    AlignByte(y);
    assert (((x as word) << 8) >> 8) as octet == x;
    assert (((y as word) << 8) >> 8) as octet == y;
  }

  lemma {:induction false} BitsInjective(a: seq<byte>, b: seq<byte>)
    requires |a| == |b| && Bits(a) == Bits(b)
    ensures a == b
  {
    if a != [] {
      assert Bits(a)[..8] == ByteBits(a[0]) && Bits(b)[..8] == ByteBits(b[0]);
      assert Bits(a)[8..] == Bits(a[1..]) && Bits(b)[8..] == Bits(b[1..]);
      OctetBitsInjective(Octet(a[0]), Octet(b[0]));
      BitsInjective(a[1..], b[1..]);
    }
  }

  // ---------- The checksum as bytes ----------

  /** The checksum as it is stored: low byte first. */
  function WordBytes(w: word): (s: seq<byte>)
    ensures |s| == 2
  {
    OctetInverse((w & 0xFF) as octet);
    OctetInverse((w >> 8) as octet);
    [((w & 0xFF) as octet) as nat, ((w >> 8) as octet) as nat]
  }

  lemma WordBytesInjective(v: word, w: word)
    requires WordBytes(v) == WordBytes(w)
    ensures v == w
  {
    assert WordBytes(v)[0] == WordBytes(w)[0] && WordBytes(v)[1] == WordBytes(w)[1];
    OctetByNumber((v & 0xFF) as octet, (w & 0xFF) as octet);
    OctetByNumber((v >> 8) as octet, (w >> 8) as octet);
    SameHalves(v, w);
  }

  lemma SameHalves(v: word, w: word)
    requires (v & 0xFF) as octet == (w & 0xFF) as octet && (v >> 8) as octet == (w >> 8) as octet
    ensures v == w
  {
  }
}
