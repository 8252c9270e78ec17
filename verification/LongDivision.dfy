/** The checksum as schoolbook division of polynomials over GF(2), written out on bit strings. */
module LongDivision {
  import opened Bytes
  import opened Folds
  import opened Crc

  /** The generator behind its leading 1: x^12 + x^5 + 1 in 16 coefficients. */
  const GENERATOR: seq<bit> := [0, 0, 0, 1, 0, 0, 0, 0, 0, 0, 1, 0, 0, 0, 0, 1]

  /** The remainder of `s`: while more than 16 coefficients are left, subtract the generator if the leading one is 1,
      and drop the leading one, which is 0 now. */
  function Remainder(s: seq<bit>): (r: seq<bit>)
    requires |s| >= 16
    ensures |r| == 16
    decreases |s|
  {
    if |s| == 16 then s
    else if s[0] == 1 then Remainder(Xor(s[1..17], GENERATOR) + s[17..])
    else Remainder(s[1..])
  }

  /** The coefficients of a register, highest first. */
  function WordBits(r: word): (s: seq<bit>)
    ensures |s| == 16
  {
    [((r >> 15) & 1) as bit, ((r >> 14) & 1) as bit, ((r >> 13) & 1) as bit, ((r >> 12) & 1) as bit,
     ((r >> 11) & 1) as bit, ((r >> 10) & 1) as bit, ((r >> 9) & 1) as bit, ((r >> 8) & 1) as bit,
     ((r >> 7) & 1) as bit, ((r >> 6) & 1) as bit, ((r >> 5) & 1) as bit, ((r >> 4) & 1) as bit,
     ((r >> 3) & 1) as bit, ((r >> 2) & 1) as bit, ((r >> 1) & 1) as bit, (r & 1) as bit]
  }

  /** `r` added to the 16 highest coefficients of `s`. */
  function AddHigh(r: word, s: seq<bit>): (t: seq<bit>)
    requires |s| >= 16
    ensures |t| == |s|
  {
    Xor(WordBits(r), s[..16]) + s[16..]
  }

  /** The coefficients of a register times x, without the highest one. */
  function Doubled(r: word): (s: seq<bit>)
    ensures |s| == 16
  {
    WordBits(r)[1..] + [0]
  }

  lemma StepBits15(r: word, b: bit)
    ensures (((Step(r, b) >> 15) & 1) as bit) == (((r >> 14) & 1) as bit)
    ensures (((Step(r, b) >> 14) & 1) as bit) == (((r >> 13) & 1) as bit)
    ensures (((Step(r, b) >> 13) & 1) as bit) == (((r >> 12) & 1) as bit)
    ensures (((Step(r, b) >> 12) & 1) as bit) == ((((r >> 11) & 1) as bit) ^ ((((r >> 15) & 1) as bit) ^ b))
  {
  }

  lemma StepBits11(r: word, b: bit)
    ensures (((Step(r, b) >> 11) & 1) as bit) == (((r >> 10) & 1) as bit)
    ensures (((Step(r, b) >> 10) & 1) as bit) == (((r >> 9) & 1) as bit)
    ensures (((Step(r, b) >> 9) & 1) as bit) == (((r >> 8) & 1) as bit)
    ensures (((Step(r, b) >> 8) & 1) as bit) == (((r >> 7) & 1) as bit)
  {
  }

  lemma StepBits7(r: word, b: bit)
    ensures (((Step(r, b) >> 7) & 1) as bit) == (((r >> 6) & 1) as bit)
    ensures (((Step(r, b) >> 6) & 1) as bit) == (((r >> 5) & 1) as bit)
    ensures (((Step(r, b) >> 5) & 1) as bit) == ((((r >> 4) & 1) as bit) ^ ((((r >> 15) & 1) as bit) ^ b))
    ensures (((Step(r, b) >> 4) & 1) as bit) == (((r >> 3) & 1) as bit)
  {
  }

  lemma StepBits3(r: word, b: bit)
    ensures (((Step(r, b) >> 3) & 1) as bit) == (((r >> 2) & 1) as bit)
    ensures (((Step(r, b) >> 2) & 1) as bit) == (((r >> 1) & 1) as bit)
    ensures (((Step(r, b) >> 1) & 1) as bit) == ((r & 1) as bit)
    ensures ((Step(r, b) & 1) as bit) == ((((r >> 15) & 1) as bit) ^ b)
  {
  }

  lemma XorBitFacts(x: bit, t: bit)
    ensures XorBit(x, 0) == x && XorBit(0, 1) == 1
    ensures t == 0 ==> x ^ t == x
    ensures t == 1 ==> x ^ t == XorBit(x, 1)
    ensures t == 0 || t == 1
  {
  }

  lemma Assemble(a: seq<bit>, w: seq<bit>, t: bit)
    requires |a| == 16 && |w| == 16
    requires forall i :: 0 <= i < 15 && i != 3 && i != 10 ==> a[i] == w[i + 1]
    requires a[3] == w[4] ^ t && a[10] == w[11] ^ t && a[15] == t
    ensures a == if t == 1 then Xor(w[1..] + [0], GENERATOR) else w[1..] + [0]
  {
    var doubled := w[1..] + [0];
    hide XorBit;
    XorBitFacts(0, t);
    forall i | 0 <= i < 16 ensures a[i] == if t == 1 then Xor(doubled, GENERATOR)[i] else doubled[i] {
      XorBitFacts(doubled[i], t);
    }
  }

  lemma Coefficients15(r: word, b: bit)
    ensures var a, w := WordBits(Step(r, b)), WordBits(r);
            a[0] == w[1] && a[1] == w[2]
  {
    hide Step;
    StepBits15(r, b);
  }

  lemma Coefficients13(r: word, b: bit)
    ensures var a, w := WordBits(Step(r, b)), WordBits(r);
            a[2] == w[3] && a[3] == w[4] ^ (w[0] ^ b)
  {
    hide Step;
    StepBits15(r, b);
  }

  lemma Coefficients11(r: word, b: bit)
    ensures var a, w := WordBits(Step(r, b)), WordBits(r);
            a[4] == w[5] && a[5] == w[6]
  {
    hide Step;
    StepBits11(r, b);
  }

  lemma Coefficients9(r: word, b: bit)
    ensures var a, w := WordBits(Step(r, b)), WordBits(r);
            a[6] == w[7] && a[7] == w[8]
  {
    hide Step;
    StepBits11(r, b);
  }

  lemma Coefficients7(r: word, b: bit)
    ensures var a, w := WordBits(Step(r, b)), WordBits(r);
            a[8] == w[9] && a[9] == w[10]
  {
    hide Step;
    StepBits7(r, b);
  }

  lemma Coefficients5(r: word, b: bit)
    ensures var a, w := WordBits(Step(r, b)), WordBits(r);
            a[10] == w[11] ^ (w[0] ^ b) && a[11] == w[12]
  {
    hide Step;
    StepBits7(r, b);
  }

  lemma Coefficients3(r: word, b: bit)
    ensures var a, w := WordBits(Step(r, b)), WordBits(r);
            a[12] == w[13] && a[13] == w[14]
  {
    hide Step;
    StepBits3(r, b);
  }

  lemma Coefficients1(r: word, b: bit)
    ensures var a, w := WordBits(Step(r, b)), WordBits(r);
            a[14] == w[15] && a[15] == w[0] ^ b
  {
    hide Step;
    StepBits3(r, b);
  }

  /** One turn of the register is one turn of long division. */
  lemma StepBits(r: word, b: bit)
    ensures WordBits(Step(r, b)) ==
              if (WordBits(r)[0] ^ b) == 1 then Xor(Doubled(r), GENERATOR) else Doubled(r)
  {
    hide Step, Xor, WordBits;
    Coefficients15(r, b);
    Coefficients13(r, b);
    Coefficients11(r, b);
    Coefficients9(r, b);
    Coefficients7(r, b);
    Coefficients5(r, b);
    Coefficients3(r, b);
    Coefficients1(r, b);
    Assemble(WordBits(Step(r, b)), WordBits(r), WordBits(r)[0] ^ b);
  }

  /** What is left of `r` added to `[b] + t` once the leading coefficient is gone. */
  lemma TailOfSum(r: word, b: bit, t: seq<bit>)
    requires |t| >= 16
    ensures AddHigh(r, [b] + t)[0] == WordBits(r)[0] ^ b
    ensures AddHigh(r, [b] + t)[1..17] == Xor(Doubled(r), t[..16])
    ensures AddHigh(r, [b] + t)[17..] == t[16..]
  {
    hide WordBits;
    var s := AddHigh(r, [b] + t);
    var d := Doubled(r);
    assert ([b] + t)[..16] == [b] + t[..15] && ([b] + t)[16..] == t[15..];
    assert s[0] == XorBit(WordBits(r)[0], b);
    forall i | 0 <= i < 16 ensures s[i + 1] == XorBit(d[i], t[i]) {
      if i == 15 {
        ZeroAdds(t[i]);
      } else {
        assert s[i + 1] == XorBit(WordBits(r)[i + 1], ([b] + t)[i + 1]);
      }
    }
    assert s[1..17] == Xor(d, t[..16]);
  }

  lemma ZeroAdds(x: bit)
    ensures XorBit(0, x) == x
  {
  }

  lemma XorThree(x: bit, y: bit, z: bit)
    ensures XorBit(XorBit(x, y), z) == XorBit(XorBit(x, z), y)
  {
  }

  lemma XorSequences(a: seq<bit>, b: seq<bit>, c: seq<bit>)
    requires |a| == |b| == |c|
    ensures Xor(Xor(a, b), c) == Xor(Xor(a, c), b)
  {
    hide XorBit;
    forall i | 0 <= i < |a| ensures Xor(Xor(a, b), c)[i] == Xor(Xor(a, c), b)[i] {
      XorThree(a[i], b[i], c[i]);
    }
  }

  /** Long division drops a message bit exactly as the register takes it in. */
  lemma OneTurn(r: word, b: bit, t: seq<bit>)
    requires |t| >= 16
    ensures Remainder(AddHigh(r, [b] + t)) == Remainder(AddHigh(Step(r, b), t))
  {
    hide WordBits, Step, Xor, Doubled;
    var s := AddHigh(r, [b] + t);
    TailOfSum(r, b, t);
    StepBits(r, b);
    if s[0] == 1 {
      XorSequences(Doubled(r), t[..16], GENERATOR);
      assert Xor(s[1..17], GENERATOR) + s[17..] == AddHigh(Step(r, b), t);
    } else {
      OneOrZero(s[0]);
      assert s[1..] == s[1..17] + s[17..];
      assert s[1..] == AddHigh(Step(r, b), t);
    }
  }

  lemma OneOrZero(x: bit)
    ensures x == 0 || x == 1
  {
  }

  /** The register form is long division: the remainder of the message times x^16, with the starting register added
      to its highest coefficients. */
  lemma {:induction false} RegisterIsLongDivision(r: word, message: seq<bit>)
    ensures WordBits(Divide(r, message)) == Remainder(AddHigh(r, message + Repeat(0, 16)))
    decreases |message|
  {
    hide WordBits, Step, Remainder, AddHigh;
    if message == [] {
      assert message + Repeat<bit>(0, 16) == Repeat(0, 16);
      NothingToDivide(r);
    } else {
      var t := message[1..] + Repeat<bit>(0, 16);
      assert message + Repeat<bit>(0, 16) == [message[0]] + t;
      OneTurn(r, message[0], t);
      RegisterIsLongDivision(Step(r, message[0]), message[1..]);
    }
  }

  lemma NothingToDivide(r: word)
    ensures Remainder(AddHigh(r, Repeat(0, 16))) == WordBits(r)
  {
    hide WordBits, XorBit;
    var zeros := Repeat<bit>(0, 16);
    assert zeros[..16] == zeros;
    forall i | 0 <= i < 16 ensures AddHigh(r, zeros)[i] == WordBits(r)[i] {
      XorBitFacts(WordBits(r)[i], 0);
    }
  }

  /** The checksum is the remainder, modulo x^16 + x^12 + x^5 + 1, of the message times x^16 with its first 16 bits
      complemented. */
  lemma ChecksumIsRemainder(data: seq<byte>)
    ensures WordBits(Crc16(data)) == Remainder(AddHigh(INIT, Bits(data) + Repeat(0, 16)))
    ensures WordBits(INIT) == Repeat(1, 16)
  {
    assert WordBits(INIT) == Repeat<bit>(1, 16);
    hide WordBits, Remainder, AddHigh;
    TableIsDivision(INIT, data);
    RegisterIsLongDivision(INIT, Bits(data));
  }
}
