/** The two lookup tables, and the proof that every entry is eight shifts of the register. */
module CrcTables {
  import opened CrcRegister

  // ----- the tables, sixteen entries a row

  const CRC16_H_0: seq<bv8> :=
    [0x00, 0xC1, 0x81, 0x40, 0x01, 0xC0, 0x80, 0x41, 0x01, 0xC0, 0x80, 0x41, 0x00, 0xC1, 0x81, 0x40]
  const CRC16_H_1: seq<bv8> :=
    [0x01, 0xC0, 0x80, 0x41, 0x00, 0xC1, 0x81, 0x40, 0x00, 0xC1, 0x81, 0x40, 0x01, 0xC0, 0x80, 0x41]
  const CRC16_H_2: seq<bv8> :=
    [0x01, 0xC0, 0x80, 0x41, 0x00, 0xC1, 0x81, 0x40, 0x00, 0xC1, 0x81, 0x40, 0x01, 0xC0, 0x80, 0x41]
  const CRC16_H_3: seq<bv8> :=
    [0x00, 0xC1, 0x81, 0x40, 0x01, 0xC0, 0x80, 0x41, 0x01, 0xC0, 0x80, 0x41, 0x00, 0xC1, 0x81, 0x40]
  const CRC16_H_4: seq<bv8> :=
    [0x01, 0xC0, 0x80, 0x41, 0x00, 0xC1, 0x81, 0x40, 0x00, 0xC1, 0x81, 0x40, 0x01, 0xC0, 0x80, 0x41]
  const CRC16_H_5: seq<bv8> :=
    [0x00, 0xC1, 0x81, 0x40, 0x01, 0xC0, 0x80, 0x41, 0x01, 0xC0, 0x80, 0x41, 0x00, 0xC1, 0x81, 0x40]
  const CRC16_H_6: seq<bv8> :=
    [0x00, 0xC1, 0x81, 0x40, 0x01, 0xC0, 0x80, 0x41, 0x01, 0xC0, 0x80, 0x41, 0x00, 0xC1, 0x81, 0x40]
  const CRC16_H_7: seq<bv8> :=
    [0x01, 0xC0, 0x80, 0x41, 0x00, 0xC1, 0x81, 0x40, 0x00, 0xC1, 0x81, 0x40, 0x01, 0xC0, 0x80, 0x41]
  const CRC16_H_8: seq<bv8> :=
    [0x01, 0xC0, 0x80, 0x41, 0x00, 0xC1, 0x81, 0x40, 0x00, 0xC1, 0x81, 0x40, 0x01, 0xC0, 0x80, 0x41]
  const CRC16_H_9: seq<bv8> :=
    [0x00, 0xC1, 0x81, 0x40, 0x01, 0xC0, 0x80, 0x41, 0x01, 0xC0, 0x80, 0x41, 0x00, 0xC1, 0x81, 0x40]
  const CRC16_H_A: seq<bv8> :=
    [0x00, 0xC1, 0x81, 0x40, 0x01, 0xC0, 0x80, 0x41, 0x01, 0xC0, 0x80, 0x41, 0x00, 0xC1, 0x81, 0x40]
  const CRC16_H_B: seq<bv8> :=
    [0x01, 0xC0, 0x80, 0x41, 0x00, 0xC1, 0x81, 0x40, 0x00, 0xC1, 0x81, 0x40, 0x01, 0xC0, 0x80, 0x41]
  const CRC16_H_C: seq<bv8> :=
    [0x00, 0xC1, 0x81, 0x40, 0x01, 0xC0, 0x80, 0x41, 0x01, 0xC0, 0x80, 0x41, 0x00, 0xC1, 0x81, 0x40]
  const CRC16_H_D: seq<bv8> :=
    [0x01, 0xC0, 0x80, 0x41, 0x00, 0xC1, 0x81, 0x40, 0x00, 0xC1, 0x81, 0x40, 0x01, 0xC0, 0x80, 0x41]
  const CRC16_H_E: seq<bv8> :=
    [0x01, 0xC0, 0x80, 0x41, 0x00, 0xC1, 0x81, 0x40, 0x00, 0xC1, 0x81, 0x40, 0x01, 0xC0, 0x80, 0x41]
  const CRC16_H_F: seq<bv8> :=
    [0x00, 0xC1, 0x81, 0x40, 0x01, 0xC0, 0x80, 0x41, 0x01, 0xC0, 0x80, 0x41, 0x00, 0xC1, 0x81, 0x40]

  const CRC16_L_0: seq<bv8> :=
    [0x00, 0xC0, 0xC1, 0x01, 0xC3, 0x03, 0x02, 0xC2, 0xC6, 0x06, 0x07, 0xC7, 0x05, 0xC5, 0xC4, 0x04]
  const CRC16_L_1: seq<bv8> :=
    [0xCC, 0x0C, 0x0D, 0xCD, 0x0F, 0xCF, 0xCE, 0x0E, 0x0A, 0xCA, 0xCB, 0x0B, 0xC9, 0x09, 0x08, 0xC8]
  const CRC16_L_2: seq<bv8> :=
    [0xD8, 0x18, 0x19, 0xD9, 0x1B, 0xDB, 0xDA, 0x1A, 0x1E, 0xDE, 0xDF, 0x1F, 0xDD, 0x1D, 0x1C, 0xDC]
  const CRC16_L_3: seq<bv8> :=
    [0x14, 0xD4, 0xD5, 0x15, 0xD7, 0x17, 0x16, 0xD6, 0xD2, 0x12, 0x13, 0xD3, 0x11, 0xD1, 0xD0, 0x10]
  const CRC16_L_4: seq<bv8> :=
    [0xF0, 0x30, 0x31, 0xF1, 0x33, 0xF3, 0xF2, 0x32, 0x36, 0xF6, 0xF7, 0x37, 0xF5, 0x35, 0x34, 0xF4]
  const CRC16_L_5: seq<bv8> :=
    [0x3C, 0xFC, 0xFD, 0x3D, 0xFF, 0x3F, 0x3E, 0xFE, 0xFA, 0x3A, 0x3B, 0xFB, 0x39, 0xF9, 0xF8, 0x38]
  const CRC16_L_6: seq<bv8> :=
    [0x28, 0xE8, 0xE9, 0x29, 0xEB, 0x2B, 0x2A, 0xEA, 0xEE, 0x2E, 0x2F, 0xEF, 0x2D, 0xED, 0xEC, 0x2C]
  const CRC16_L_7: seq<bv8> :=
    [0xE4, 0x24, 0x25, 0xE5, 0x27, 0xE7, 0xE6, 0x26, 0x22, 0xE2, 0xE3, 0x23, 0xE1, 0x21, 0x20, 0xE0]
  const CRC16_L_8: seq<bv8> :=
    [0xA0, 0x60, 0x61, 0xA1, 0x63, 0xA3, 0xA2, 0x62, 0x66, 0xA6, 0xA7, 0x67, 0xA5, 0x65, 0x64, 0xA4]
  const CRC16_L_9: seq<bv8> :=
    [0x6C, 0xAC, 0xAD, 0x6D, 0xAF, 0x6F, 0x6E, 0xAE, 0xAA, 0x6A, 0x6B, 0xAB, 0x69, 0xA9, 0xA8, 0x68]
  const CRC16_L_A: seq<bv8> :=
    [0x78, 0xB8, 0xB9, 0x79, 0xBB, 0x7B, 0x7A, 0xBA, 0xBE, 0x7E, 0x7F, 0xBF, 0x7D, 0xBD, 0xBC, 0x7C]
  const CRC16_L_B: seq<bv8> :=
    [0xB4, 0x74, 0x75, 0xB5, 0x77, 0xB7, 0xB6, 0x76, 0x72, 0xB2, 0xB3, 0x73, 0xB1, 0x71, 0x70, 0xB0]
  const CRC16_L_C: seq<bv8> :=
    [0x50, 0x90, 0x91, 0x51, 0x93, 0x53, 0x52, 0x92, 0x96, 0x56, 0x57, 0x97, 0x55, 0x95, 0x94, 0x54]
  const CRC16_L_D: seq<bv8> :=
    [0x9C, 0x5C, 0x5D, 0x9D, 0x5F, 0x9F, 0x9E, 0x5E, 0x5A, 0x9A, 0x9B, 0x5B, 0x99, 0x59, 0x58, 0x98]
  const CRC16_L_E: seq<bv8> :=
    [0x88, 0x48, 0x49, 0x89, 0x4B, 0x8B, 0x8A, 0x4A, 0x4E, 0x8E, 0x8F, 0x4F, 0x8D, 0x4D, 0x4C, 0x8C]
  const CRC16_L_F: seq<bv8> :=
    [0x44, 0x84, 0x85, 0x45, 0x87, 0x47, 0x46, 0x86, 0x82, 0x42, 0x43, 0x83, 0x41, 0x81, 0x80, 0x40]

  const CRC16_H: seq<seq<bv8>> := [
    CRC16_H_0, CRC16_H_1, CRC16_H_2, CRC16_H_3, CRC16_H_4, CRC16_H_5, CRC16_H_6, CRC16_H_7,
    CRC16_H_8, CRC16_H_9, CRC16_H_A, CRC16_H_B, CRC16_H_C, CRC16_H_D, CRC16_H_E, CRC16_H_F]

  const CRC16_L: seq<seq<bv8>> := [
    CRC16_L_0, CRC16_L_1, CRC16_L_2, CRC16_L_3, CRC16_L_4, CRC16_L_5, CRC16_L_6, CRC16_L_7,
    CRC16_L_8, CRC16_L_9, CRC16_L_A, CRC16_L_B, CRC16_L_C, CRC16_L_D, CRC16_L_E, CRC16_L_F]

  predicate IsTable(table: seq<seq<bv8>>)
  {
    |table| == 16 && forall r :: 0 <= r < 16 ==> |table[r]| == 16
  }

  /** The entry at `pos` of a table laid out sixteen entries a row. */
  function Entry(table: seq<seq<bv8>>, pos: bv16): bv8
    requires IsTable(table) && pos <= 0xFF
  {
    IndexInRange(pos);
    table[(pos >> 4) as int][(pos & 0xF) as int]
  }

  lemma IndexInRange(pos: bv16)
    requires pos <= 0xFF
    ensures 0 <= (pos >> 4) as int < 16 && 0 <= (pos & 0xF) as int < 16
  {
  }

  // ----- the tables hold the register's steps

  /** The two bytes tabulated for `x` are the register after eight shifts of `x`. */
  predicate Cell(h: bv8, l: bv8, x: bv16)
  {
    Shift8(x) == Join(h, l)
  }

  predicate HalfRow(h: seq<bv8>, l: seq<bv8>, k: nat, base: bv16)
    requires |h| == |l| == 16 && k in {0, 8}
  {
    && Cell(h[k + 0], l[k + 0], base ^ 0)
    && Cell(h[k + 1], l[k + 1], base ^ 1)
    && Cell(h[k + 2], l[k + 2], base ^ 2)
    && Cell(h[k + 3], l[k + 3], base ^ 3)
    && Cell(h[k + 4], l[k + 4], base ^ 4)
    && Cell(h[k + 5], l[k + 5], base ^ 5)
    && Cell(h[k + 6], l[k + 6], base ^ 6)
    && Cell(h[k + 7], l[k + 7], base ^ 7)
  }

  predicate WholeRow(h: seq<bv8>, l: seq<bv8>, base: bv16)
  {
    |h| == |l| == 16 && HalfRow(h, l, 0, base) && HalfRow(h, l, 8, base ^ 8)
  }

  lemma Row0()
    ensures HalfRow(CRC16_H_0, CRC16_L_0, 0, 0x00) && HalfRow(CRC16_H_0, CRC16_L_0, 8, 0x08)
  {
  }

  lemma Row1()
    ensures HalfRow(CRC16_H_1, CRC16_L_1, 0, 0x10) && HalfRow(CRC16_H_1, CRC16_L_1, 8, 0x18)
  {
  }

  lemma Row2()
    ensures HalfRow(CRC16_H_2, CRC16_L_2, 0, 0x20) && HalfRow(CRC16_H_2, CRC16_L_2, 8, 0x28)
  {
  }

  lemma Row3()
    ensures HalfRow(CRC16_H_3, CRC16_L_3, 0, 0x30) && HalfRow(CRC16_H_3, CRC16_L_3, 8, 0x38)
  {
  }

  lemma Row4()
    ensures HalfRow(CRC16_H_4, CRC16_L_4, 0, 0x40) && HalfRow(CRC16_H_4, CRC16_L_4, 8, 0x48)
  {
  }

  lemma Row5()
    ensures HalfRow(CRC16_H_5, CRC16_L_5, 0, 0x50) && HalfRow(CRC16_H_5, CRC16_L_5, 8, 0x58)
  {
  }

  lemma Row6()
    ensures HalfRow(CRC16_H_6, CRC16_L_6, 0, 0x60) && HalfRow(CRC16_H_6, CRC16_L_6, 8, 0x68)
  {
  }

  lemma Row7()
    ensures HalfRow(CRC16_H_7, CRC16_L_7, 0, 0x70) && HalfRow(CRC16_H_7, CRC16_L_7, 8, 0x78)
  {
  }

  lemma Row8()
    ensures HalfRow(CRC16_H_8, CRC16_L_8, 0, 0x80) && HalfRow(CRC16_H_8, CRC16_L_8, 8, 0x88)
  {
  }

  lemma Row9()
    ensures HalfRow(CRC16_H_9, CRC16_L_9, 0, 0x90) && HalfRow(CRC16_H_9, CRC16_L_9, 8, 0x98)
  {
  }

  lemma RowA()
    ensures HalfRow(CRC16_H_A, CRC16_L_A, 0, 0xA0) && HalfRow(CRC16_H_A, CRC16_L_A, 8, 0xA8)
  {
  }

  lemma RowB()
    ensures HalfRow(CRC16_H_B, CRC16_L_B, 0, 0xB0) && HalfRow(CRC16_H_B, CRC16_L_B, 8, 0xB8)
  {
  }

  lemma RowC()
    ensures HalfRow(CRC16_H_C, CRC16_L_C, 0, 0xC0) && HalfRow(CRC16_H_C, CRC16_L_C, 8, 0xC8)
  {
  }

  lemma RowD()
    ensures HalfRow(CRC16_H_D, CRC16_L_D, 0, 0xD0) && HalfRow(CRC16_H_D, CRC16_L_D, 8, 0xD8)
  {
  }

  lemma RowE()
    ensures HalfRow(CRC16_H_E, CRC16_L_E, 0, 0xE0) && HalfRow(CRC16_H_E, CRC16_L_E, 8, 0xE8)
  {
  }

  lemma RowF()
    ensures HalfRow(CRC16_H_F, CRC16_L_F, 0, 0xF0) && HalfRow(CRC16_H_F, CRC16_L_F, 8, 0xF8)
  {
  }

  lemma CellInRow(h: seq<bv8>, l: seq<bv8>, base: bv16, x: bv16)
    requires WholeRow(h, l, base)
    requires x <= 0xFF && x & 0xF0 == base
    ensures 0 <= (x & 0xF) as int < 16 && Cell(h[(x & 0xF) as int], l[(x & 0xF) as int], x)
  {
    hide Cell;
    IndexInRange(x);
  }

  lemma TablesAreTables()
    ensures IsTable(CRC16_H) && IsTable(CRC16_L)
  {
  }

  function RowBase(r: nat): bv16
    requires r < 16
  {
    match r
    case 0 => 0x00
    case 1 => 0x10
    case 2 => 0x20
    case 3 => 0x30
    case 4 => 0x40
    case 5 => 0x50
    case 6 => 0x60
    case 7 => 0x70
    case 8 => 0x80
    case 9 => 0x90
    case 10 => 0xA0
    case 11 => 0xB0
    case 12 => 0xC0
    case 13 => 0xD0
    case 14 => 0xE0
    case 15 => 0xF0
  }

  lemma RowBaseOf(x: bv16)
    requires x <= 0xFF
    ensures 0 <= (x >> 4) as int < 16 && RowBase((x >> 4) as int) == x & 0xF0
  {
    IndexInRange(x);
  }

  function RowOfH(r: nat): (row: seq<bv8>)
    requires r < 16
    ensures |row| == 16
  {
    match r
    case 0 => CRC16_H_0
    case 1 => CRC16_H_1
    case 2 => CRC16_H_2
    case 3 => CRC16_H_3
    case 4 => CRC16_H_4
    case 5 => CRC16_H_5
    case 6 => CRC16_H_6
    case 7 => CRC16_H_7
    case 8 => CRC16_H_8
    case 9 => CRC16_H_9
    case 10 => CRC16_H_A
    case 11 => CRC16_H_B
    case 12 => CRC16_H_C
    case 13 => CRC16_H_D
    case 14 => CRC16_H_E
    case 15 => CRC16_H_F
  }

  function RowOfL(r: nat): (row: seq<bv8>)
    requires r < 16
    ensures |row| == 16
  {
    match r
    case 0 => CRC16_L_0
    case 1 => CRC16_L_1
    case 2 => CRC16_L_2
    case 3 => CRC16_L_3
    case 4 => CRC16_L_4
    case 5 => CRC16_L_5
    case 6 => CRC16_L_6
    case 7 => CRC16_L_7
    case 8 => CRC16_L_8
    case 9 => CRC16_L_9
    case 10 => CRC16_L_A
    case 11 => CRC16_L_B
    case 12 => CRC16_L_C
    case 13 => CRC16_L_D
    case 14 => CRC16_L_E
    case 15 => CRC16_L_F
  }

  lemma TableRows(r: nat)
    requires r < 16
    ensures IsTable(CRC16_H) && IsTable(CRC16_L) && CRC16_H[r] == RowOfH(r) && CRC16_L[r] == RowOfL(r)
  {
    TablesAreTables();
  }

  lemma RowsAreShifts(r: nat)
    requires r < 16
    ensures WholeRow(RowOfH(r), RowOfL(r), RowBase(r))
  {
    hide HalfRow;
    match r
    case 0 => Row0();
    case 1 => Row1();
    case 2 => Row2();
    case 3 => Row3();
    case 4 => Row4();
    case 5 => Row5();
    case 6 => Row6();
    case 7 => Row7();
    case 8 => Row8();
    case 9 => Row9();
    case 10 => RowA();
    case 11 => RowB();
    case 12 => RowC();
    case 13 => RowD();
    case 14 => RowE();
    case 15 => RowF();
  }

  /** Every entry of the two tables is the register after eight shifts of its index. */
  lemma TablesAreShifts(x: bv16)
    requires x <= 0xFF
    ensures IsTable(CRC16_H) && IsTable(CRC16_L) && Cell(Entry(CRC16_H, x), Entry(CRC16_L, x), x)
  {
    hide Cell, WholeRow, RowBase, RowOfH, RowOfL;
    IndexInRange(x);
    RowBaseOf(x);
    var r := (x >> 4) as int;
    TableRows(r);
    RowsAreShifts(r);
    CellInRow(CRC16_H[r], CRC16_L[r], RowBase(r), x);
  }
}
