/**
 The lookup table of internal/modbus/crc.go, and two recurrences that tie each entry to an earlier
 one: module Crcs derives from them what the table means.
 */
module CrcTables {
  import opened Bytes

  /** The generator polynomial, bit-reversed: section 6.2.2 of MODBUS over Serial Line V1.02. */
  const POLYNOMIAL: uint16 := 0xA001

  /** `x ^ w` for a power of two w. */
  function Flip(x: int, w: int): int
    requires w > 0
  {
    if x / w % 2 == 1 then x - w else x + w
  }

  /** One round on a register held as a number: shift right, and add the polynomial when a one falls out. */
  function Round(s: nat): int {
    if s % 2 == 1 then Flip(Flip(Flip(s / 2, 0x1), 0x2000), 0x8000) else s / 2
  }

  function CrcTable(index: byte): uint16 {
    Entry(index / 16, index % 16)
  }

  function Entry(row: nat, i: nat): uint16 {
    match row
    case 0 => Row0(i)
    case 1 => Row1(i)
    case 2 => Row2(i)
    case 3 => Row3(i)
    case 4 => Row4(i)
    case 5 => Row5(i)
    case 6 => Row6(i)
    case 7 => Row7(i)
    case 8 => Row8(i)
    case 9 => Row9(i)
    case 10 => RowA(i)
    case 11 => RowB(i)
    case 12 => RowC(i)
    case 13 => RowD(i)
    case 14 => RowE(i)
    case _ => RowF(i)
  }

  function Row0(i: nat): uint16 {
    match i
    case 0 => 0x0000 case 1 => 0xc0c1 case 2 => 0xc181 case 3 => 0x0140
    case 4 => 0xc301 case 5 => 0x03c0 case 6 => 0x0280 case 7 => 0xc241
    case 8 => 0xc601 case 9 => 0x06c0 case 10 => 0x0780 case 11 => 0xc741
    case 12 => 0x0500 case 13 => 0xc5c1 case 14 => 0xc481 case _ => 0x0440
  }

  function Row1(i: nat): uint16 {
    match i
    case 0 => 0xcc01 case 1 => 0x0cc0 case 2 => 0x0d80 case 3 => 0xcd41
    case 4 => 0x0f00 case 5 => 0xcfc1 case 6 => 0xce81 case 7 => 0x0e40
    case 8 => 0x0a00 case 9 => 0xcac1 case 10 => 0xcb81 case 11 => 0x0b40
    case 12 => 0xc901 case 13 => 0x09c0 case 14 => 0x0880 case _ => 0xc841
  }

  function Row2(i: nat): uint16 {
    match i
    case 0 => 0xd801 case 1 => 0x18c0 case 2 => 0x1980 case 3 => 0xd941
    case 4 => 0x1b00 case 5 => 0xdbc1 case 6 => 0xda81 case 7 => 0x1a40
    case 8 => 0x1e00 case 9 => 0xdec1 case 10 => 0xdf81 case 11 => 0x1f40
    case 12 => 0xdd01 case 13 => 0x1dc0 case 14 => 0x1c80 case _ => 0xdc41
  }

  function Row3(i: nat): uint16 {
    match i
    case 0 => 0x1400 case 1 => 0xd4c1 case 2 => 0xd581 case 3 => 0x1540
    case 4 => 0xd701 case 5 => 0x17c0 case 6 => 0x1680 case 7 => 0xd641
    case 8 => 0xd201 case 9 => 0x12c0 case 10 => 0x1380 case 11 => 0xd341
    case 12 => 0x1100 case 13 => 0xd1c1 case 14 => 0xd081 case _ => 0x1040
  }

  function Row4(i: nat): uint16 {
    match i
    case 0 => 0xf001 case 1 => 0x30c0 case 2 => 0x3180 case 3 => 0xf141
    case 4 => 0x3300 case 5 => 0xf3c1 case 6 => 0xf281 case 7 => 0x3240
    case 8 => 0x3600 case 9 => 0xf6c1 case 10 => 0xf781 case 11 => 0x3740
    case 12 => 0xf501 case 13 => 0x35c0 case 14 => 0x3480 case _ => 0xf441
  }

  function Row5(i: nat): uint16 {
    match i
    case 0 => 0x3c00 case 1 => 0xfcc1 case 2 => 0xfd81 case 3 => 0x3d40
    case 4 => 0xff01 case 5 => 0x3fc0 case 6 => 0x3e80 case 7 => 0xfe41
    case 8 => 0xfa01 case 9 => 0x3ac0 case 10 => 0x3b80 case 11 => 0xfb41
    case 12 => 0x3900 case 13 => 0xf9c1 case 14 => 0xf881 case _ => 0x3840
  }

  function Row6(i: nat): uint16 {
    match i
    case 0 => 0x2800 case 1 => 0xe8c1 case 2 => 0xe981 case 3 => 0x2940
    case 4 => 0xeb01 case 5 => 0x2bc0 case 6 => 0x2a80 case 7 => 0xea41
    case 8 => 0xee01 case 9 => 0x2ec0 case 10 => 0x2f80 case 11 => 0xef41
    case 12 => 0x2d00 case 13 => 0xedc1 case 14 => 0xec81 case _ => 0x2c40
  }

  function Row7(i: nat): uint16 {
    match i
    case 0 => 0xe401 case 1 => 0x24c0 case 2 => 0x2580 case 3 => 0xe541
    case 4 => 0x2700 case 5 => 0xe7c1 case 6 => 0xe681 case 7 => 0x2640
    case 8 => 0x2200 case 9 => 0xe2c1 case 10 => 0xe381 case 11 => 0x2340
    case 12 => 0xe101 case 13 => 0x21c0 case 14 => 0x2080 case _ => 0xe041
  }

  function Row8(i: nat): uint16 {
    match i
    case 0 => 0xa001 case 1 => 0x60c0 case 2 => 0x6180 case 3 => 0xa141
    case 4 => 0x6300 case 5 => 0xa3c1 case 6 => 0xa281 case 7 => 0x6240
    case 8 => 0x6600 case 9 => 0xa6c1 case 10 => 0xa781 case 11 => 0x6740
    case 12 => 0xa501 case 13 => 0x65c0 case 14 => 0x6480 case _ => 0xa441
  }

  function Row9(i: nat): uint16 {
    match i
    case 0 => 0x6c00 case 1 => 0xacc1 case 2 => 0xad81 case 3 => 0x6d40
    case 4 => 0xaf01 case 5 => 0x6fc0 case 6 => 0x6e80 case 7 => 0xae41
    case 8 => 0xaa01 case 9 => 0x6ac0 case 10 => 0x6b80 case 11 => 0xab41
    case 12 => 0x6900 case 13 => 0xa9c1 case 14 => 0xa881 case _ => 0x6840
  }

  function RowA(i: nat): uint16 {
    match i
    case 0 => 0x7800 case 1 => 0xb8c1 case 2 => 0xb981 case 3 => 0x7940
    case 4 => 0xbb01 case 5 => 0x7bc0 case 6 => 0x7a80 case 7 => 0xba41
    case 8 => 0xbe01 case 9 => 0x7ec0 case 10 => 0x7f80 case 11 => 0xbf41
    case 12 => 0x7d00 case 13 => 0xbdc1 case 14 => 0xbc81 case _ => 0x7c40
  }

  function RowB(i: nat): uint16 {
    match i
    case 0 => 0xb401 case 1 => 0x74c0 case 2 => 0x7580 case 3 => 0xb541
    case 4 => 0x7700 case 5 => 0xb7c1 case 6 => 0xb681 case 7 => 0x7640
    case 8 => 0x7200 case 9 => 0xb2c1 case 10 => 0xb381 case 11 => 0x7340
    case 12 => 0xb101 case 13 => 0x71c0 case 14 => 0x7080 case _ => 0xb041
  }

  function RowC(i: nat): uint16 {
    match i
    case 0 => 0x5000 case 1 => 0x90c1 case 2 => 0x9181 case 3 => 0x5140
    case 4 => 0x9301 case 5 => 0x53c0 case 6 => 0x5280 case 7 => 0x9241
    case 8 => 0x9601 case 9 => 0x56c0 case 10 => 0x5780 case 11 => 0x9741
    case 12 => 0x5500 case 13 => 0x95c1 case 14 => 0x9481 case _ => 0x5440
  }

  function RowD(i: nat): uint16 {
    match i
    case 0 => 0x9c01 case 1 => 0x5cc0 case 2 => 0x5d80 case 3 => 0x9d41
    case 4 => 0x5f00 case 5 => 0x9fc1 case 6 => 0x9e81 case 7 => 0x5e40
    case 8 => 0x5a00 case 9 => 0x9ac1 case 10 => 0x9b81 case 11 => 0x5b40
    case 12 => 0x9901 case 13 => 0x59c0 case 14 => 0x5880 case _ => 0x9841
  }

  function RowE(i: nat): uint16 {
    match i
    case 0 => 0x8801 case 1 => 0x48c0 case 2 => 0x4980 case 3 => 0x8941
    case 4 => 0x4b00 case 5 => 0x8bc1 case 6 => 0x8a81 case 7 => 0x4a40
    case 8 => 0x4e00 case 9 => 0x8ec1 case 10 => 0x8f81 case 11 => 0x4f40
    case 12 => 0x8d01 case 13 => 0x4dc0 case 14 => 0x4c80 case _ => 0x8c41
  }

  function RowF(i: nat): uint16 {
    match i
    case 0 => 0x4400 case 1 => 0x84c1 case 2 => 0x8581 case 3 => 0x4540
    case 4 => 0x8701 case 5 => 0x47c0 case 6 => 0x4680 case 7 => 0x8641
    case 8 => 0x8201 case 9 => 0x42c0 case 10 => 0x4380 case 11 => 0x8341
    case 12 => 0x4100 case 13 => 0x81c1 case 14 => 0x8081 case _ => 0x4040
  }

  // Both recurrences are checked row by row: the solver settles the sixteen entries of a row at a time,
  // but runs out of resource when it has to consider all rows in one proof.

  lemma Row0Even(i: nat)
    requires i < 16
    ensures Row0(i) == Round(if i < 8 then Row0(2 * i) else Row1(2 * i - 16))
  {
  }

  lemma Row1Even(i: nat)
    requires i < 16
    ensures Row1(i) == Round(if i < 8 then Row2(2 * i) else Row3(2 * i - 16))
  {
  }

  lemma Row2Even(i: nat)
    requires i < 16
    ensures Row2(i) == Round(if i < 8 then Row4(2 * i) else Row5(2 * i - 16))
  {
  }

  lemma Row3Even(i: nat)
    requires i < 16
    ensures Row3(i) == Round(if i < 8 then Row6(2 * i) else Row7(2 * i - 16))
  {
  }

  lemma Row4Even(i: nat)
    requires i < 16
    ensures Row4(i) == Round(if i < 8 then Row8(2 * i) else Row9(2 * i - 16))
  {
  }

  lemma Row5Even(i: nat)
    requires i < 16
    ensures Row5(i) == Round(if i < 8 then RowA(2 * i) else RowB(2 * i - 16))
  {
  }

  lemma Row6Even(i: nat)
    requires i < 16
    ensures Row6(i) == Round(if i < 8 then RowC(2 * i) else RowD(2 * i - 16))
  {
  }

  lemma Row7Even(i: nat)
    requires i < 16
    ensures Row7(i) == Round(if i < 8 then RowE(2 * i) else RowF(2 * i - 16))
  {
  }

  /** One more round takes entry 2j to entry j. */
  lemma EvenRow(row: nat, i: nat)
    requires row < 8 && i < 16
    ensures Entry(row, i) == Round(if i < 8 then Entry(2 * row, 2 * i) else Entry(2 * row + 1, 2 * i - 16))
  {
    match row
    case 0 => Row0Even(i);
    case 1 => Row1Even(i);
    case 2 => Row2Even(i);
    case 3 => Row3Even(i);
    case 4 => Row4Even(i);
    case 5 => Row5Even(i);
    case 6 => Row6Even(i);
    case _ => Row7Even(i);
  }

  lemma EvenEntry(j: nat)
    requires j < 128
    ensures CrcTable(j) == Round(CrcTable(2 * j))
  {
    EvenRow(j / 16, j % 16);
    var k := 2 * j;
    assert k / 16 == if j % 16 < 8 then 2 * (j / 16) else 2 * (j / 16) + 1;
    assert k % 16 == if j % 16 < 8 then 2 * (j % 16) else 2 * (j % 16) - 16;
  }

  /** `x ^ 0xC0C1` */
  function AddEntry1(x: int): int {
    Flip(Flip(Flip(Flip(Flip(x, 0x1), 0x40), 0x80), 0x4000), 0x8000)
  }

  lemma Row0Odd(i: nat)
    requires i < 8
    ensures Row0(2 * i + 1) == AddEntry1(Row0(2 * i))
  {
  }

  lemma Row1Odd(i: nat)
    requires i < 8
    ensures Row1(2 * i + 1) == AddEntry1(Row1(2 * i))
  {
  }

  lemma Row2Odd(i: nat)
    requires i < 8
    ensures Row2(2 * i + 1) == AddEntry1(Row2(2 * i))
  {
  }

  lemma Row3Odd(i: nat)
    requires i < 8
    ensures Row3(2 * i + 1) == AddEntry1(Row3(2 * i))
  {
  }

  lemma Row4Odd(i: nat)
    requires i < 8
    ensures Row4(2 * i + 1) == AddEntry1(Row4(2 * i))
  {
  }

  lemma Row5Odd(i: nat)
    requires i < 8
    ensures Row5(2 * i + 1) == AddEntry1(Row5(2 * i))
  {
  }

  lemma Row6Odd(i: nat)
    requires i < 8
    ensures Row6(2 * i + 1) == AddEntry1(Row6(2 * i))
  {
  }

  lemma Row7Odd(i: nat)
    requires i < 8
    ensures Row7(2 * i + 1) == AddEntry1(Row7(2 * i))
  {
  }

  lemma Row8Odd(i: nat)
    requires i < 8
    ensures Row8(2 * i + 1) == AddEntry1(Row8(2 * i))
  {
  }

  lemma Row9Odd(i: nat)
    requires i < 8
    ensures Row9(2 * i + 1) == AddEntry1(Row9(2 * i))
  {
  }

  lemma RowAOdd(i: nat)
    requires i < 8
    ensures RowA(2 * i + 1) == AddEntry1(RowA(2 * i))
  {
  }

  lemma RowBOdd(i: nat)
    requires i < 8
    ensures RowB(2 * i + 1) == AddEntry1(RowB(2 * i))
  {
  }

  lemma RowCOdd(i: nat)
    requires i < 8
    ensures RowC(2 * i + 1) == AddEntry1(RowC(2 * i))
  {
  }

  lemma RowDOdd(i: nat)
    requires i < 8
    ensures RowD(2 * i + 1) == AddEntry1(RowD(2 * i))
  {
  }

  lemma RowEOdd(i: nat)
    requires i < 8
    ensures RowE(2 * i + 1) == AddEntry1(RowE(2 * i))
  {
  }

  lemma RowFOdd(i: nat)
    requires i < 8
    ensures RowF(2 * i + 1) == AddEntry1(RowF(2 * i))
  {
  }

  /** Entry 2j + 1 is entry 2j with entry 1 added. */
  lemma OddRow(row: nat, i: nat)
    requires row < 16 && i < 8
    ensures Entry(row, 2 * i + 1) == AddEntry1(Entry(row, 2 * i))
  {
    match row
    case 0 => Row0Odd(i);
    case 1 => Row1Odd(i);
    case 2 => Row2Odd(i);
    case 3 => Row3Odd(i);
    case 4 => Row4Odd(i);
    case 5 => Row5Odd(i);
    case 6 => Row6Odd(i);
    case 7 => Row7Odd(i);
    case 8 => Row8Odd(i);
    case 9 => Row9Odd(i);
    case 10 => RowAOdd(i);
    case 11 => RowBOdd(i);
    case 12 => RowCOdd(i);
    case 13 => RowDOdd(i);
    case 14 => RowEOdd(i);
    case _ => RowFOdd(i);
  }

  lemma EntryAt(row: nat, i: nat)
    requires row < 16 && i < 16
    ensures CrcTable(16 * row + i) == Entry(row, i)
  {
    var index := 16 * row + i;
    assert index / 16 == row && index % 16 == i;
  }

  lemma OddEntry(row: nat, i: nat)
    requires row < 16 && i < 8
    ensures CrcTable(16 * row + (2 * i + 1)) == AddEntry1(CrcTable(16 * row + 2 * i))
  {
    hide AddEntry1;
    hide Entry;
    OddRow(row, i);
    EntryAt(row, 2 * i);
    EntryAt(row, 2 * i + 1);
  }
}
