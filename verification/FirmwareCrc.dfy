/** The checksum of the firmware: the same loop over a table written out as literals. */
module FirmwareCrc {
  import opened Bytes
  import opened Crc

  /** Row `h` of `crc_table`: the eight literals at indices 8h to 8h + 7. */
  function Row(h: octet): (s: seq<word>)
    ensures |s| == 8
  {
    match h
    case 0 => [0x0000, 0x1021, 0x2042, 0x3063, 0x4084, 0x50A5, 0x60C6, 0x70E7]
    case 1 => [0x8108, 0x9129, 0xA14A, 0xB16B, 0xC18C, 0xD1AD, 0xE1CE, 0xF1EF]
    case 2 => [0x1231, 0x0210, 0x3273, 0x2252, 0x52B5, 0x4294, 0x72F7, 0x62D6]
    case 3 => [0x9339, 0x8318, 0xB37B, 0xA35A, 0xD3BD, 0xC39C, 0xF3FF, 0xE3DE]
    case 4 => [0x2462, 0x3443, 0x0420, 0x1401, 0x64E6, 0x74C7, 0x44A4, 0x5485]
    case 5 => [0xA56A, 0xB54B, 0x8528, 0x9509, 0xE5EE, 0xF5CF, 0xC5AC, 0xD58D]
    case 6 => [0x3653, 0x2672, 0x1611, 0x0630, 0x76D7, 0x66F6, 0x5695, 0x46B4]
    case 7 => [0xB75B, 0xA77A, 0x9719, 0x8738, 0xF7DF, 0xE7FE, 0xD79D, 0xC7BC]
    case 8 => [0x48C4, 0x58E5, 0x6886, 0x78A7, 0x0840, 0x1861, 0x2802, 0x3823]
    case 9 => [0xC9CC, 0xD9ED, 0xE98E, 0xF9AF, 0x8948, 0x9969, 0xA90A, 0xB92B]
    case 10 => [0x5AF5, 0x4AD4, 0x7AB7, 0x6A96, 0x1A71, 0x0A50, 0x3A33, 0x2A12]
    case 11 => [0xDBFD, 0xCBDC, 0xFBBF, 0xEB9E, 0x9B79, 0x8B58, 0xBB3B, 0xAB1A]
    case 12 => [0x6CA6, 0x7C87, 0x4CE4, 0x5CC5, 0x2C22, 0x3C03, 0x0C60, 0x1C41]
    case 13 => [0xEDAE, 0xFD8F, 0xCDEC, 0xDDCD, 0xAD2A, 0xBD0B, 0x8D68, 0x9D49]
    case 14 => [0x7E97, 0x6EB6, 0x5ED5, 0x4EF4, 0x3E13, 0x2E32, 0x1E51, 0x0E70]
    case 15 => [0xFF9F, 0xEFBE, 0xDFDD, 0xCFFC, 0xBF1B, 0xAF3A, 0x9F59, 0x8F78]
    case 16 => [0x9188, 0x81A9, 0xB1CA, 0xA1EB, 0xD10C, 0xC12D, 0xF14E, 0xE16F]
    case 17 => [0x1080, 0x00A1, 0x30C2, 0x20E3, 0x5004, 0x4025, 0x7046, 0x6067]
    case 18 => [0x83B9, 0x9398, 0xA3FB, 0xB3DA, 0xC33D, 0xD31C, 0xE37F, 0xF35E]
    case 19 => [0x02B1, 0x1290, 0x22F3, 0x32D2, 0x4235, 0x5214, 0x6277, 0x7256]
    case 20 => [0xB5EA, 0xA5CB, 0x95A8, 0x8589, 0xF56E, 0xE54F, 0xD52C, 0xC50D]
    case 21 => [0x34E2, 0x24C3, 0x14A0, 0x0481, 0x7466, 0x6447, 0x5424, 0x4405]
    case 22 => [0xA7DB, 0xB7FA, 0x8799, 0x97B8, 0xE75F, 0xF77E, 0xC71D, 0xD73C]
    case 23 => [0x26D3, 0x36F2, 0x0691, 0x16B0, 0x6657, 0x7676, 0x4615, 0x5634]
    case 24 => [0xD94C, 0xC96D, 0xF90E, 0xE92F, 0x99C8, 0x89E9, 0xB98A, 0xA9AB]
    case 25 => [0x5844, 0x4865, 0x7806, 0x6827, 0x18C0, 0x08E1, 0x3882, 0x28A3]
    case 26 => [0xCB7D, 0xDB5C, 0xEB3F, 0xFB1E, 0x8BF9, 0x9BD8, 0xABBB, 0xBB9A]
    case 27 => [0x4A75, 0x5A54, 0x6A37, 0x7A16, 0x0AF1, 0x1AD0, 0x2AB3, 0x3A92]
    case 28 => [0xFD2E, 0xED0F, 0xDD6C, 0xCD4D, 0xBDAA, 0xAD8B, 0x9DE8, 0x8DC9]
    case 29 => [0x7C26, 0x6C07, 0x5C64, 0x4C45, 0x3CA2, 0x2C83, 0x1CE0, 0x0CC1]
    case 30 => [0xEF1F, 0xFF3E, 0xCF5D, 0xDF7C, 0xAF9B, 0xBFBA, 0x8FD9, 0x9FF8]
    case _ => [0x6E17, 0x7E36, 0x4E55, 0x5E74, 0x2E93, 0x3EB2, 0x0ED1, 0x1EF0]
  }

  function Column(i: octet): nat {
    (i & 7) as nat
  }

  /** `crc_table[i]`. */
  function TableAt(i: octet): word {
    LowBits(i);
    Row(i >> 3)[Column(i)]
  }

  lemma LowBits(i: octet)
    ensures Column(i) < 8
  {
  }

  function Formulas(h: octet): (s: seq<word>)
    ensures |s| == 8
  {
    [Formula(8 * h), Formula(8 * h + 1), Formula(8 * h + 2), Formula(8 * h + 3),
     Formula(8 * h + 4), Formula(8 * h + 5), Formula(8 * h + 6), Formula(8 * h + 7)]
  }

  lemma Rows0(h: octet)
    requires 0 <= h <= 3
    ensures Row(h) == Formulas(h)
  {
    match h
    case 0 => assert Row(0) == Formulas(0);
    case 1 => assert Row(1) == Formulas(1);
    case 2 => assert Row(2) == Formulas(2);
    case 3 => assert Row(3) == Formulas(3);
    case _ =>
  }

  lemma Rows4(h: octet)
    requires 4 <= h <= 7
    ensures Row(h) == Formulas(h)
  {
    match h
    case 4 => assert Row(4) == Formulas(4);
    case 5 => assert Row(5) == Formulas(5);
    case 6 => assert Row(6) == Formulas(6);
    case 7 => assert Row(7) == Formulas(7);
    case _ =>
  }

  lemma Rows8(h: octet)
    requires 8 <= h <= 11
    ensures Row(h) == Formulas(h)
  {
    match h
    case 8 => assert Row(8) == Formulas(8);
    case 9 => assert Row(9) == Formulas(9);
    case 10 => assert Row(10) == Formulas(10);
    case 11 => assert Row(11) == Formulas(11);
    case _ =>
  }

  lemma Rows12(h: octet)
    requires 12 <= h <= 15
    ensures Row(h) == Formulas(h)
  {
    match h
    case 12 => assert Row(12) == Formulas(12);
    case 13 => assert Row(13) == Formulas(13);
    case 14 => assert Row(14) == Formulas(14);
    case 15 => assert Row(15) == Formulas(15);
    case _ =>
  }

  lemma Rows16(h: octet)
    requires 16 <= h <= 19
    ensures Row(h) == Formulas(h)
  {
    match h
    case 16 => assert Row(16) == Formulas(16);
    case 17 => assert Row(17) == Formulas(17);
    case 18 => assert Row(18) == Formulas(18);
    case 19 => assert Row(19) == Formulas(19);
    case _ =>
  }

  lemma Rows20(h: octet)
    requires 20 <= h <= 23
    ensures Row(h) == Formulas(h)
  {
    match h
    case 20 => assert Row(20) == Formulas(20);
    case 21 => assert Row(21) == Formulas(21);
    case 22 => assert Row(22) == Formulas(22);
    case 23 => assert Row(23) == Formulas(23);
    case _ =>
  }

  lemma Rows24(h: octet)
    requires 24 <= h <= 27
    ensures Row(h) == Formulas(h)
  {
    match h
    case 24 => assert Row(24) == Formulas(24);
    case 25 => assert Row(25) == Formulas(25);
    case 26 => assert Row(26) == Formulas(26);
    case 27 => assert Row(27) == Formulas(27);
    case _ =>
  }

  lemma Rows28(h: octet)
    requires 28 <= h <= 31
    ensures Row(h) == Formulas(h)
  {
    match h
    case 28 => assert Row(28) == Formulas(28);
    case 29 => assert Row(29) == Formulas(29);
    case 30 => assert Row(30) == Formulas(30);
    case 31 => assert Row(31) == Formulas(31);
    case _ =>
  }

  lemma RowsAgree(h: octet)
    requires h < 32
    ensures Row(h) == Formulas(h)
  {
    if h < 4 { Rows0(h); }
    else if h < 8 { Rows4(h); }
    else if h < 12 { Rows8(h); }
    else if h < 16 { Rows12(h); }
    else if h < 20 { Rows16(h); }
    else if h < 24 { Rows20(h); }
    else if h < 28 { Rows24(h); }
    else { Rows28(h); }
  }

  lemma Recompose(i: octet)
    ensures i == 8 * (i >> 3) + (i & 7) && i & 7 < 8
  {
  }

  lemma FormulaInRow(i: octet)
    ensures Formulas(i >> 3)[Column(i)] == Formula(i)
  {
    var h, j := i >> 3, i & 7;
    Recompose(i);
    if j == 0 { } else if j == 1 { } else if j == 2 { } else if j == 3 { }
    else if j == 4 { } else if j == 5 { } else if j == 6 { } else { assert j == 7; }
  }

  /** Every literal of the firmware's table is the generated entry. */
  lemma LiteralsAreGenerated(i: octet)
    ensures TableAt(i) == Entry(i)
  {
    assert i >> 3 < 32;
    RowsAgree(i >> 3);
    FormulaInRow(i);
    EntryFormula(i);
  }

  /** `bcp_crc16`: the firmware computes the same checksum as the services. */
  method Compute(data: seq<byte>) returns (crc: word)
    ensures crc == Crc16(data) == Divide(INIT, Bits(data))
  {
    crc := 0xFFFF;
    for i := 0 to |data|
      invariant crc == Crc16From(INIT, data[..i])
    {
      var idx := Index(crc, Octet(data[i]));
      LiteralsAreGenerated(idx);
      AppendByte(INIT, data, i);
      crc := (crc << 8) ^ TableAt(idx);
    }
    assert data[..|data|] == data;
    TableIsDivision(INIT, data);
  }
}
