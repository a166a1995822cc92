/** src/Util.cpp: the checksum by table, a byte at a time, against the register that takes a bit at a time. */
module Crc32 {

  const POLYNOMIAL: bv32 := 0x04C11DB7

  const TOP: bv32 := 0x8000_0000

  // Words as polynomials over the field of two elements.

  function Sum(a: bv32, b: bv32): bv32 {
    a ^ b
  }

  function Double(a: bv32): bv32 {
    a << 1
  }

  predicate HasTop(a: bv32) {
    a & TOP != 0
  }

  /** A byte at the upper end of a word. */
  function Raised(b: bv8): bv32 {
    (b as bv32) << 24
  }

  /** Shifts a zero into the register; a one that falls out subtracts the polynomial. */
  function Shifted(r: bv32): bv32 {
    if HasTop(r) then Sum(Double(r), POLYNOMIAL) else Double(r)
  }

  /** Takes a bit of the message, given as the top bit of `b`. */
  function TakeBit(r: bv32, b: bv8): bv32 {
    Shifted(if b & 0x80 != 0 then Sum(r, TOP) else r)
  }

  function NextBit(b: bv8): bv8 {
    b << 1
  }

  /** The first bits of a byte, the most significant first. */
  function TakeBits(r: bv32, b: bv8, n: nat): bv32
    decreases n
  {
    if n == 0 then r else TakeBits(TakeBit(r, b), NextBit(b), n - 1)
  }

  function Register(data: seq<bv8>, r: bv32): bv32 {
    if data == [] then r else Register(data[1..], TakeBits(r, data[0], 8))
  }

  // The table of include/mgpcl/CRC32_Poly.h, sixteen entries a row.

  const ROW_0: seq<bv32> := [
    0x00000000, 0x04C11DB7, 0x09823B6E, 0x0D4326D9, 0x130476DC, 0x17C56B6B, 0x1A864DB2, 0x1E475005,
    0x2608EDB8, 0x22C9F00F, 0x2F8AD6D6, 0x2B4BCB61, 0x350C9B64, 0x31CD86D3, 0x3C8EA00A, 0x384FBDBD]

  const ROW_1: seq<bv32> := [
    0x4C11DB70, 0x48D0C6C7, 0x4593E01E, 0x4152FDA9, 0x5F15ADAC, 0x5BD4B01B, 0x569796C2, 0x52568B75,
    0x6A1936C8, 0x6ED82B7F, 0x639B0DA6, 0x675A1011, 0x791D4014, 0x7DDC5DA3, 0x709F7B7A, 0x745E66CD]

  const ROW_2: seq<bv32> := [
    0x9823B6E0, 0x9CE2AB57, 0x91A18D8E, 0x95609039, 0x8B27C03C, 0x8FE6DD8B, 0x82A5FB52, 0x8664E6E5,
    0xBE2B5B58, 0xBAEA46EF, 0xB7A96036, 0xB3687D81, 0xAD2F2D84, 0xA9EE3033, 0xA4AD16EA, 0xA06C0B5D]

  const ROW_3: seq<bv32> := [
    0xD4326D90, 0xD0F37027, 0xDDB056FE, 0xD9714B49, 0xC7361B4C, 0xC3F706FB, 0xCEB42022, 0xCA753D95,
    0xF23A8028, 0xF6FB9D9F, 0xFBB8BB46, 0xFF79A6F1, 0xE13EF6F4, 0xE5FFEB43, 0xE8BCCD9A, 0xEC7DD02D]

  const ROW_4: seq<bv32> := [
    0x34867077, 0x30476DC0, 0x3D044B19, 0x39C556AE, 0x278206AB, 0x23431B1C, 0x2E003DC5, 0x2AC12072,
    0x128E9DCF, 0x164F8078, 0x1B0CA6A1, 0x1FCDBB16, 0x018AEB13, 0x054BF6A4, 0x0808D07D, 0x0CC9CDCA]

  const ROW_5: seq<bv32> := [
    0x7897AB07, 0x7C56B6B0, 0x71159069, 0x75D48DDE, 0x6B93DDDB, 0x6F52C06C, 0x6211E6B5, 0x66D0FB02,
    0x5E9F46BF, 0x5A5E5B08, 0x571D7DD1, 0x53DC6066, 0x4D9B3063, 0x495A2DD4, 0x44190B0D, 0x40D816BA]

  const ROW_6: seq<bv32> := [
    0xACA5C697, 0xA864DB20, 0xA527FDF9, 0xA1E6E04E, 0xBFA1B04B, 0xBB60ADFC, 0xB6238B25, 0xB2E29692,
    0x8AAD2B2F, 0x8E6C3698, 0x832F1041, 0x87EE0DF6, 0x99A95DF3, 0x9D684044, 0x902B669D, 0x94EA7B2A]

  const ROW_7: seq<bv32> := [
    0xE0B41DE7, 0xE4750050, 0xE9362689, 0xEDF73B3E, 0xF3B06B3B, 0xF771768C, 0xFA325055, 0xFEF34DE2,
    0xC6BCF05F, 0xC27DEDE8, 0xCF3ECB31, 0xCBFFD686, 0xD5B88683, 0xD1799B34, 0xDC3ABDED, 0xD8FBA05A]

  const ROW_8: seq<bv32> := [
    0x690CE0EE, 0x6DCDFD59, 0x608EDB80, 0x644FC637, 0x7A089632, 0x7EC98B85, 0x738AAD5C, 0x774BB0EB,
    0x4F040D56, 0x4BC510E1, 0x46863638, 0x42472B8F, 0x5C007B8A, 0x58C1663D, 0x558240E4, 0x51435D53]

  const ROW_9: seq<bv32> := [
    0x251D3B9E, 0x21DC2629, 0x2C9F00F0, 0x285E1D47, 0x36194D42, 0x32D850F5, 0x3F9B762C, 0x3B5A6B9B,
    0x0315D626, 0x07D4CB91, 0x0A97ED48, 0x0E56F0FF, 0x1011A0FA, 0x14D0BD4D, 0x19939B94, 0x1D528623]

  const ROW_A: seq<bv32> := [
    0xF12F560E, 0xF5EE4BB9, 0xF8AD6D60, 0xFC6C70D7, 0xE22B20D2, 0xE6EA3D65, 0xEBA91BBC, 0xEF68060B,
    0xD727BBB6, 0xD3E6A601, 0xDEA580D8, 0xDA649D6F, 0xC423CD6A, 0xC0E2D0DD, 0xCDA1F604, 0xC960EBB3]

  const ROW_B: seq<bv32> := [
    0xBD3E8D7E, 0xB9FF90C9, 0xB4BCB610, 0xB07DABA7, 0xAE3AFBA2, 0xAAFBE615, 0xA7B8C0CC, 0xA379DD7B,
    0x9B3660C6, 0x9FF77D71, 0x92B45BA8, 0x9675461F, 0x8832161A, 0x8CF30BAD, 0x81B02D74, 0x857130C3]

  const ROW_C: seq<bv32> := [
    0x5D8A9099, 0x594B8D2E, 0x5408ABF7, 0x50C9B640, 0x4E8EE645, 0x4A4FFBF2, 0x470CDD2B, 0x43CDC09C,
    0x7B827D21, 0x7F436096, 0x7200464F, 0x76C15BF8, 0x68860BFD, 0x6C47164A, 0x61043093, 0x65C52D24]

  const ROW_D: seq<bv32> := [
    0x119B4BE9, 0x155A565E, 0x18197087, 0x1CD86D30, 0x029F3D35, 0x065E2082, 0x0B1D065B, 0x0FDC1BEC,
    0x3793A651, 0x3352BBE6, 0x3E119D3F, 0x3AD08088, 0x2497D08D, 0x2056CD3A, 0x2D15EBE3, 0x29D4F654]

  const ROW_E: seq<bv32> := [
    0xC5A92679, 0xC1683BCE, 0xCC2B1D17, 0xC8EA00A0, 0xD6AD50A5, 0xD26C4D12, 0xDF2F6BCB, 0xDBEE767C,
    0xE3A1CBC1, 0xE760D676, 0xEA23F0AF, 0xEEE2ED18, 0xF0A5BD1D, 0xF464A0AA, 0xF9278673, 0xFDE69BC4]

  const ROW_F: seq<bv32> := [
    0x89B8FD09, 0x8D79E0BE, 0x803AC667, 0x84FBDBD0, 0x9ABC8BD5, 0x9E7D9662, 0x933EB0BB, 0x97FFAD0C,
    0xAFB010B1, 0xAB710D06, 0xA6322BDF, 0xA2F33668, 0xBCB4666D, 0xB8757BDA, 0xB5365D03, 0xB1F740B4]

  function Table(i: bv8): bv32 {
    if i < 16 then ROW_0[i as int]
    else if i < 32 then ROW_1[(i - 16) as int]
    else if i < 48 then ROW_2[(i - 32) as int]
    else if i < 64 then ROW_3[(i - 48) as int]
    else if i < 80 then ROW_4[(i - 64) as int]
    else if i < 96 then ROW_5[(i - 80) as int]
    else if i < 112 then ROW_6[(i - 96) as int]
    else if i < 128 then ROW_7[(i - 112) as int]
    else if i < 144 then ROW_8[(i - 128) as int]
    else if i < 160 then ROW_9[(i - 144) as int]
    else if i < 176 then ROW_A[(i - 160) as int]
    else if i < 192 then ROW_B[(i - 176) as int]
    else if i < 208 then ROW_C[(i - 192) as int]
    else if i < 224 then ROW_D[(i - 208) as int]
    else if i < 240 then ROW_E[(i - 224) as int]
    else ROW_F[(i - 240) as int]
  }

  function ShiftedBy(r: bv32, n: nat): bv32
    decreases n
  {
    if n == 0 then r else ShiftedBy(Shifted(r), n - 1)
  }

  function Shifted8(r: bv32): bv32 {
    Shifted(Shifted(Shifted(Shifted(Shifted(Shifted(Shifted(Shifted(r))))))))
  }

  lemma Eight(r: bv32)
    ensures ShiftedBy(r, 8) == Shifted8(r)
  {
    hide Shifted;
    var r4 := Shifted(Shifted(Shifted(Shifted(r))));
    assert ShiftedBy(r, 8) == ShiftedBy(Shifted(Shifted(r)), 6) == ShiftedBy(r4, 4);
    assert ShiftedBy(r4, 4) == ShiftedBy(Shifted(Shifted(r4)), 2);
  }

  /** What an entry should be: its index alone in the register, shifted out. */
  function Entry(i: bv8): bv32 {
    Shifted8(Raised(i))
  }

  lemma Sixteen(j: bv8)
    requires j < 16
    ensures j == 0 || j == 1 || j == 2 || j == 3 || j == 4 || j == 5 || j == 6 || j == 7
         || j == 8 || j == 9 || j == 10 || j == 11 || j == 12 || j == 13 || j == 14 || j == 15
    ensures j as int < 16
  {
  }

  lemma FirstEntries()
    ensures Entry(0) == 0x00000000 && Entry(1) == 0x04C11DB7 && Entry(2) == 0x09823B6E && Entry(3) == 0x0D4326D9
    ensures Entry(4) == 0x130476DC && Entry(5) == 0x17C56B6B && Entry(6) == 0x1A864DB2 && Entry(7) == 0x1E475005
    ensures Entry(8) == 0x2608EDB8 && Entry(9) == 0x22C9F00F && Entry(10) == 0x2F8AD6D6 && Entry(11) == 0x2B4BCB61
    ensures Entry(12) == 0x350C9B64 && Entry(13) == 0x31CD86D3 && Entry(14) == 0x3C8EA00A && Entry(15) == 0x384FBDBD
  {
  }

  lemma Row0(j: bv8)
    requires j < 16
    ensures j as int < 16 && ROW_0[j as int] == Entry(j)
  {
    FirstEntries();
    hide Entry;
    Sixteen(j);
  }

  lemma Row1(j: bv8)
    requires j < 16
    ensures j as int < 16 && ROW_1[j as int] == Entry(16 + j)
  {
    Sixteen(j);
  }

  lemma Row2(j: bv8)
    requires j < 16
    ensures j as int < 16 && ROW_2[j as int] == Entry(32 + j)
  {
    Sixteen(j);
  }

  lemma Row3(j: bv8)
    requires j < 16
    ensures j as int < 16 && ROW_3[j as int] == Entry(48 + j)
  {
    Sixteen(j);
  }

  lemma Row4(j: bv8)
    requires j < 16
    ensures j as int < 16 && ROW_4[j as int] == Entry(64 + j)
  {
    Sixteen(j);
  }

  lemma Row5(j: bv8)
    requires j < 16
    ensures j as int < 16 && ROW_5[j as int] == Entry(80 + j)
  {
    Sixteen(j);
  }

  lemma Row6(j: bv8)
    requires j < 16
    ensures j as int < 16 && ROW_6[j as int] == Entry(96 + j)
  {
    Sixteen(j);
  }

  lemma Row7(j: bv8)
    requires j < 16
    ensures j as int < 16 && ROW_7[j as int] == Entry(112 + j)
  {
    Sixteen(j);
  }

  lemma Row8(j: bv8)
    requires j < 16
    ensures j as int < 16 && ROW_8[j as int] == Entry(128 + j)
  {
    Sixteen(j);
  }

  lemma Row9(j: bv8)
    requires j < 16
    ensures j as int < 16 && ROW_9[j as int] == Entry(144 + j)
  {
    Sixteen(j);
  }

  lemma RowA(j: bv8)
    requires j < 16
    ensures j as int < 16 && ROW_A[j as int] == Entry(160 + j)
  {
    Sixteen(j);
  }

  lemma RowB(j: bv8)
    requires j < 16
    ensures j as int < 16 && ROW_B[j as int] == Entry(176 + j)
  {
    Sixteen(j);
  }

  lemma RowC(j: bv8)
    requires j < 16
    ensures j as int < 16 && ROW_C[j as int] == Entry(192 + j)
  {
    Sixteen(j);
  }

  lemma RowD(j: bv8)
    requires j < 16
    ensures j as int < 16 && ROW_D[j as int] == Entry(208 + j)
  {
    Sixteen(j);
  }

  lemma RowE(j: bv8)
    requires j < 16
    ensures j as int < 16 && ROW_E[j as int] == Entry(224 + j)
  {
    Sixteen(j);
  }

  lemma RowF(j: bv8)
    requires j < 16
    ensures j as int < 16 && ROW_F[j as int] == Entry(240 + j)
  {
    Sixteen(j);
  }

  lemma TableIsRight(i: bv8)
    ensures Table(i) == Entry(i)
  {
    hide Entry;
    if i < 16 { Row0(i); }
    else if i < 32 { Row1(i - 16); }
    else if i < 48 { Row2(i - 32); }
    else if i < 64 { Row3(i - 48); }
    else if i < 80 { Row4(i - 64); }
    else if i < 96 { Row5(i - 80); }
    else if i < 112 { Row6(i - 96); }
    else if i < 128 { Row7(i - 112); }
    else if i < 144 { Row8(i - 128); }
    else if i < 160 { Row9(i - 144); }
    else if i < 176 { RowA(i - 160); }
    else if i < 192 { RowB(i - 176); }
    else if i < 208 { RowC(i - 192); }
    else if i < 224 { RowD(i - 208); }
    else if i < 240 { RowE(i - 224); }
    else { RowF(i - 240); }
  }

  // The register takes a whole byte at once.

  lemma SumCommutes(a: bv32, b: bv32)
    ensures Sum(a, b) == Sum(b, a)
  {
  }

  lemma SumAssociates(a: bv32, b: bv32, c: bv32)
    ensures Sum(Sum(a, b), c) == Sum(a, Sum(b, c))
  {
  }

  lemma SumCancels(a: bv32, b: bv32)
    ensures Sum(Sum(a, b), b) == a
  {
  }

  lemma DoubleSum(a: bv32, b: bv32)
    ensures Double(Sum(a, b)) == Sum(Double(a), Double(b))
  {
  }

  lemma TopSum(a: bv32, b: bv32)
    ensures HasTop(Sum(a, b)) <==> HasTop(a) != HasTop(b)
  {
  }

  lemma ShiftedSum(a: bv32, b: bv32)
    ensures Shifted(Sum(a, b)) == Sum(Shifted(a), Shifted(b))
  {
    hide Sum, Double, HasTop;
    var x, y, p := Double(a), Double(b), POLYNOMIAL;
    DoubleSum(a, b);
    TopSum(a, b);
    SumAssociates(x, y, p);
    SumAssociates(x, p, y);
    SumCommutes(p, y);
    SumAssociates(Sum(x, p), y, p);
    SumAssociates(x, p, Sum(y, p));
    SumCommutes(p, Sum(y, p));
    SumCancels(y, p);
  }

  lemma {:induction false} ShiftedBySum(a: bv32, b: bv32, n: nat)
    ensures ShiftedBy(Sum(a, b), n) == Sum(ShiftedBy(a, n), ShiftedBy(b, n))
    decreases n
  {
    if n > 0 {
      hide Sum, Shifted;
      ShiftedSum(a, b);
      ShiftedBySum(Shifted(a), Shifted(b), n - 1);
    }
  }

  lemma LowBitsShift(r: bv32)
    ensures Shifted8(r & 0xFF_FFFF) == r << 8
  {
  }

  function LowBits(b: bv8): bv32 {
    Raised(b) & 0x7FFF_FFFF
  }

  lemma TopBit(b: bv8)
    ensures Raised(b) == if b & 0x80 != 0 then Sum(TOP, LowBits(b)) else LowBits(b)
  {
  }

  lemma LowBitsNext(b: bv8)
    ensures Shifted(LowBits(b)) == Raised(NextBit(b))
  {
  }

  /** A bit may be in the register before it is taken, and so may the bits after it. */
  lemma BitAhead(r: bv32, b: bv8)
    ensures Sum(TakeBit(r, b), Raised(NextBit(b))) == Shifted(Sum(r, Raised(b)))
  {
    hide Sum, Shifted, Raised, NextBit, LowBits;
    TopBit(b);
    LowBitsNext(b);
    SumAssociates(r, TOP, LowBits(b));
    ShiftedSum(if b & 0x80 != 0 then Sum(r, TOP) else r, LowBits(b));
  }

  function Rest(b: bv8, n: nat): bv8
    decreases n
  {
    if n == 0 then b else Rest(NextBit(b), n - 1)
  }

  lemma {:induction false} BitsAhead(r: bv32, b: bv8, n: nat)
    ensures Sum(TakeBits(r, b, n), Raised(Rest(b, n))) == ShiftedBy(Sum(r, Raised(b)), n)
    decreases n
  {
    hide Sum, Shifted, Raised, NextBit, TakeBit;
    if n > 0 {
      BitAhead(r, b);
      BitsAhead(TakeBit(r, b), NextBit(b), n - 1);
    }
  }

  lemma NothingLeft(b: bv8)
    ensures Rest(b, 8) == 0
  {
    var b4 := NextBit(NextBit(NextBit(NextBit(b))));
    assert Rest(b, 8) == Rest(NextBit(NextBit(b)), 6) == Rest(b4, 4);
    assert Rest(b4, 4) == Rest(NextBit(NextBit(b4)), 2);
  }

  lemma SumNothing(a: bv32)
    ensures Sum(a, Raised(0)) == a
  {
  }

  lemma ByteAhead(r: bv32, b: bv8)
    ensures TakeBits(r, b, 8) == ShiftedBy(Sum(r, Raised(b)), 8)
  {
    hide TakeBits, ShiftedBy, Rest, Sum, Raised;
    BitsAhead(r, b, 8);
    NothingLeft(b);
    SumNothing(TakeBits(r, b, 8));
  }

  lemma WordSplit(r: bv32)
    ensures r == Sum(Raised((r >> 24) as bv8), r & 0xFF_FFFF)
  {
  }

  lemma RaisedXor(a: bv8, b: bv8)
    ensures Raised(a ^ b) == Sum(Raised(a), Raised(b))
  {
  }

  lemma IndexAndRest(r: bv32, high: bv8, low: bv32, b: bv8)
    requires r == Sum(Raised(high), low)
    ensures Sum(r, Raised(b)) == Sum(Raised(high ^ b), low)
  {
    hide Sum, Raised;
    RaisedXor(high, b);
    SumAssociates(Raised(high), low, Raised(b));
    SumCommutes(low, Raised(b));
    SumAssociates(Raised(high), Raised(b), low);
  }

  lemma Looked(i: bv8, low: bv32, shifted: bv32)
    requires Shifted8(low) == shifted
    ensures ShiftedBy(Sum(Raised(i), low), 8) == Sum(Table(i), shifted)
  {
    hide Sum, Shifted8, Raised, Table, ShiftedBy;
    TableIsRight(i);
    ShiftedBySum(Raised(i), low, 8);
    Eight(Raised(i));
    Eight(low);
  }

  /** A byte by the table is the eight bits of it. */
  lemma ByteByTable(r: bv32, b: bv8)
    ensures TakeBits(r, b, 8) == Sum(Table(((r >> 24) as bv8) ^ b), r << 8)
  {
    LowBitsShift(r);
    hide *;
    ByteAhead(r, b);
    WordSplit(r);
    IndexAndRest(r, (r >> 24) as bv8, r & 0xFF_FFFF, b);
    Looked(((r >> 24) as bv8) ^ b, r & 0xFF_FFFF, r << 8);
  }

  method Crc32(data: seq<bv8>, initial: bv32) returns (crc: bv32)
    ensures crc == Register(data, initial)
  {
    hide TakeBits, Table;
    crc := initial;
    var len := |data|;
    while len > 0
      invariant 0 <= len <= |data|
      invariant Register(data[|data| - len..], crc) == Register(data, initial)
    {
      var d := data[|data| - len];
      ByteByTable(crc, d);
      assert data[|data| - len..][1..] == data[|data| - (len - 1)..];
      crc := Sum(Table(((crc >> 24) as bv8) ^ d), crc << 8);
      len := len - 1;
    }
  }

  /** The checksum of a message is that of its second part, started with that of its first. */
  lemma {:induction false} RegisterSplit(a: seq<bv8>, b: seq<bv8>, r: bv32)
    ensures Register(a + b, r) == Register(b, Register(a, r))
    decreases a
  {
    if a == [] {
      assert a + b == b;
    } else {
      hide TakeBits;
      RegisterSplit(a[1..], b, TakeBits(r, a[0], 8));
      assert (a + b)[1..] == a[1..] + b;
    }
  }

  // One checksum computed.

  lemma ThreeBytes(a: bv8, b: bv8, c: bv8, r0: bv32, r1: bv32, r2: bv32, r3: bv32)
    requires r1 == Sum(Table(((r0 >> 24) as bv8) ^ a), r0 << 8)
    requires r2 == Sum(Table(((r1 >> 24) as bv8) ^ b), r1 << 8)
    requires r3 == Sum(Table(((r2 >> 24) as bv8) ^ c), r2 << 8)
    ensures Register([a, b, c], r0) == r3
  {
    hide TakeBits, Sum, Table;
    ByteByTable(r0, a);
    ByteByTable(r1, b);
    ByteByTable(r2, c);
    assert [a, b, c][1..] == [b, c] && [b, c][1..] == [c] && [c][1..] == [];
    assert Register([c], r2) == Register([], r3) == r3;
    assert Register([b, c], r1) == Register([c], r2);
  }

  lemma Digits123()
    ensures Register([0x31, 0x32, 0x33], 0xFFFF_FFFF) == 0xD952_F164
  {
    ThreeBytes(0x31, 0x32, 0x33, 0xFFFF_FFFF, 0x9EFB_CF93, 0x3FEC_5E6A, 0xD952_F164);
  }

  lemma Digits456()
    ensures Register([0x34, 0x35, 0x36], 0xD952_F164) == 0xD8F0_6C8F
  {
    ThreeBytes(0x34, 0x35, 0x36, 0xD952_F164, 0xA695_C4AA, 0xBD9A_B747, 0xD8F0_6C8F);
  }

  lemma Digits789()
    ensures Register([0x37, 0x38, 0x39], 0xD8F0_6C8F) == 0x0376_E6E7
  {
    ThreeBytes(0x37, 0x38, 0x39, 0xD8F0_6C8F, 0x0D8A_14C4, 0x49E3_C2FB, 0x0376_E6E7);
  }

  /** The check value of this polynomial, most significant bit first: the digits 1 to 9, started from all ones. */
  lemma CheckValue()
    ensures Register([0x31, 0x32, 0x33, 0x34, 0x35, 0x36, 0x37, 0x38, 0x39], 0xFFFF_FFFF) == 0x0376_E6E7
  {
    hide Register;
    Digits123();
    Digits456();
    Digits789();
    var a: seq<bv8>, b: seq<bv8>, c: seq<bv8> := [0x31, 0x32, 0x33], [0x34, 0x35, 0x36], [0x37, 0x38, 0x39];
    RegisterSplit(a, b, 0xFFFF_FFFF);
    RegisterSplit(a + b, c, 0xFFFF_FFFF);
    assert a + b + c == [0x31, 0x32, 0x33, 0x34, 0x35, 0x36, 0x37, 0x38, 0x39];
  }
}
