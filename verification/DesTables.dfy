/**
 The tables of src/crypto/modern/symmetric/block/DES.cpp.  Positions count the bits of a
 64-bit word from 1, the most significant bit.
 */
module DesTables {
  type Position = p: int | 1 <= p <= 64 witness 1
  type Nibble = n: int | 0 <= n < 16

  /** The rows of IP. */
  function IPRow(r: nat): seq<Position>
    requires r < 8
  {
    match r
    case 0 => [58, 50, 42, 34, 26, 18, 10, 2]
    case 1 => [60, 52, 44, 36, 28, 20, 12, 4]
    case 2 => [62, 54, 46, 38, 30, 22, 14, 6]
    case 3 => [64, 56, 48, 40, 32, 24, 16, 8]
    case 4 => [57, 49, 41, 33, 25, 17, 9, 1]
    case 5 => [59, 51, 43, 35, 27, 19, 11, 3]
    case 6 => [61, 53, 45, 37, 29, 21, 13, 5]
    case _ => [63, 55, 47, 39, 31, 23, 15, 7]
  }

  const IP: seq<Position> := IPRow(0) + IPRow(1) + IPRow(2) + IPRow(3) + IPRow(4) + IPRow(5) + IPRow(6) + IPRow(7)

  /** The rows of FP. */
  function FPRow(r: nat): seq<Position>
    requires r < 8
  {
    match r
    case 0 => [40, 8, 48, 16, 56, 24, 64, 32]
    case 1 => [39, 7, 47, 15, 55, 23, 63, 31]
    case 2 => [38, 6, 46, 14, 54, 22, 62, 30]
    case 3 => [37, 5, 45, 13, 53, 21, 61, 29]
    case 4 => [36, 4, 44, 12, 52, 20, 60, 28]
    case 5 => [35, 3, 43, 11, 51, 19, 59, 27]
    case 6 => [34, 2, 42, 10, 50, 18, 58, 26]
    case _ => [33, 1, 41, 9, 49, 17, 57, 25]
  }

  const FP: seq<Position> := FPRow(0) + FPRow(1) + FPRow(2) + FPRow(3) + FPRow(4) + FPRow(5) + FPRow(6) + FPRow(7)

  /** The six entries of E for an S-box. */
  function ERow(r: nat): seq<Position>
    requires r < 8
  {
    match r
    case 0 => [32, 1, 2, 3, 4, 5]
    case 1 => [4, 5, 6, 7, 8, 9]
    case 2 => [8, 9, 10, 11, 12, 13]
    case 3 => [12, 13, 14, 15, 16, 17]
    case 4 => [16, 17, 18, 19, 20, 21]
    case 5 => [20, 21, 22, 23, 24, 25]
    case 6 => [24, 25, 26, 27, 28, 29]
    case _ => [28, 29, 30, 31, 32, 1]
  }

  const E: seq<Position> := ERow(0) + ERow(1) + ERow(2) + ERow(3) + ERow(4) + ERow(5) + ERow(6) + ERow(7)

  /** Eight entries of P at a time. */
  function PRow(r: nat): seq<Position>
    requires r < 4
  {
    match r
    case 0 => [16, 7, 20, 21, 29, 12, 28, 17]
    case 1 => [1, 15, 23, 26, 5, 18, 31, 10]
    case 2 => [2, 8, 24, 14, 32, 27, 3, 9]
    case _ => [19, 13, 30, 6, 22, 11, 4, 25]
  }

  const P: seq<Position> := PRow(0) + PRow(1) + PRow(2) + PRow(3)

  /** Eight entries of PC1 at a time. */
  function PC1Row(r: nat): seq<Position>
    requires r < 7
  {
    match r
    case 0 => [57, 49, 41, 33, 25, 17, 9, 1]
    case 1 => [58, 50, 42, 34, 26, 18, 10, 2]
    case 2 => [59, 51, 43, 35, 27, 19, 11, 3]
    case 3 => [60, 52, 44, 36, 63, 55, 47, 39]
    case 4 => [31, 23, 15, 7, 62, 54, 46, 38]
    case 5 => [30, 22, 14, 6, 61, 53, 45, 37]
    case _ => [29, 21, 13, 5, 28, 20, 12, 4]
  }

  const PC1: seq<Position> := PC1Row(0) + PC1Row(1) + PC1Row(2) + PC1Row(3) + PC1Row(4) + PC1Row(5) + PC1Row(6)

  /** Eight entries of PC2 at a time. */
  function PC2Row(r: nat): seq<Position>
    requires r < 6
  {
    match r
    case 0 => [14, 17, 11, 24, 1, 5, 3, 28]
    case 1 => [15, 6, 21, 10, 23, 19, 12, 4]
    case 2 => [26, 8, 16, 7, 27, 20, 13, 2]
    case 3 => [41, 52, 31, 37, 47, 55, 30, 40]
    case 4 => [51, 45, 33, 48, 44, 49, 39, 56]
    case _ => [34, 53, 46, 42, 50, 36, 29, 32]
  }

  const PC2: seq<Position> := PC2Row(0) + PC2Row(1) + PC2Row(2) + PC2Row(3) + PC2Row(4) + PC2Row(5)

  const SHIFTS: seq<nat> := [1, 1, 2, 2, 2, 2, 2, 2, 1, 2, 2, 2, 2, 2, 2, 1]

  /** One of the sixteen entries of a row. */
  function Entry(c: nat, e0: Nibble, e1: Nibble, e2: Nibble, e3: Nibble, e4: Nibble, e5: Nibble, e6: Nibble, e7: Nibble,
      e8: Nibble, e9: Nibble, e10: Nibble, e11: Nibble, e12: Nibble, e13: Nibble, e14: Nibble, e15: Nibble): Nibble
    requires c < 16
  {
    if c == 0 then e0 else if c == 1 then e1 else if c == 2 then e2 else if c == 3 then e3
    else if c == 4 then e4 else if c == 5 then e5 else if c == 6 then e6 else if c == 7 then e7
    else if c == 8 then e8 else if c == 9 then e9 else if c == 10 then e10 else if c == 11 then e11
    else if c == 12 then e12 else if c == 13 then e13 else if c == 14 then e14 else e15
  }

  function S1(r: nat, c: nat): Nibble
    requires r < 4 && c < 16
  {
    match r
    case 0 => Entry(c, 14, 4, 13, 1, 2, 15, 11, 8, 3, 10, 6, 12, 5, 9, 0, 7)
    case 1 => Entry(c, 0, 15, 7, 4, 14, 2, 13, 1, 10, 6, 12, 11, 9, 5, 3, 8)
    case 2 => Entry(c, 4, 1, 14, 8, 13, 6, 2, 11, 15, 12, 9, 7, 3, 10, 5, 0)
    case _ => Entry(c, 15, 12, 8, 2, 4, 9, 1, 7, 5, 11, 3, 14, 10, 0, 6, 13)
  }

  function S2(r: nat, c: nat): Nibble
    requires r < 4 && c < 16
  {
    match r
    case 0 => Entry(c, 15, 1, 8, 14, 6, 11, 3, 4, 9, 7, 2, 13, 12, 0, 5, 10)
    case 1 => Entry(c, 3, 13, 4, 7, 15, 2, 8, 14, 12, 0, 1, 10, 6, 9, 11, 5)
    case 2 => Entry(c, 0, 14, 7, 11, 10, 4, 13, 1, 5, 8, 12, 6, 9, 3, 2, 15)
    case _ => Entry(c, 13, 8, 10, 1, 3, 15, 4, 2, 11, 6, 7, 12, 0, 5, 14, 9)
  }

  function S3(r: nat, c: nat): Nibble
    requires r < 4 && c < 16
  {
    match r
    case 0 => Entry(c, 10, 0, 9, 14, 6, 3, 15, 5, 1, 13, 12, 7, 11, 4, 2, 8)
    case 1 => Entry(c, 13, 7, 0, 9, 3, 4, 6, 10, 2, 8, 5, 14, 12, 11, 15, 1)
    case 2 => Entry(c, 13, 6, 4, 9, 8, 15, 3, 0, 11, 1, 2, 12, 5, 10, 14, 7)
    case _ => Entry(c, 1, 10, 13, 0, 6, 9, 8, 7, 4, 15, 14, 3, 11, 5, 2, 12)
  }

  function S4(r: nat, c: nat): Nibble
    requires r < 4 && c < 16
  {
    match r
    case 0 => Entry(c, 7, 13, 14, 3, 0, 6, 9, 10, 1, 2, 8, 5, 11, 12, 4, 15)
    case 1 => Entry(c, 13, 8, 11, 5, 6, 15, 0, 3, 4, 7, 2, 12, 1, 10, 14, 9)
    case 2 => Entry(c, 10, 6, 9, 0, 12, 11, 7, 13, 15, 1, 3, 14, 5, 2, 8, 4)
    case _ => Entry(c, 3, 15, 0, 6, 10, 1, 13, 8, 9, 4, 5, 11, 12, 7, 2, 14)
  }

  function S5(r: nat, c: nat): Nibble
    requires r < 4 && c < 16
  {
    match r
    case 0 => Entry(c, 2, 12, 4, 1, 7, 10, 11, 6, 8, 5, 3, 15, 13, 0, 14, 9)
    case 1 => Entry(c, 14, 11, 2, 12, 4, 7, 13, 1, 5, 0, 15, 10, 3, 9, 8, 6)
    case 2 => Entry(c, 4, 2, 1, 11, 10, 13, 7, 8, 15, 9, 12, 5, 6, 3, 0, 14)
    case _ => Entry(c, 11, 8, 12, 7, 1, 14, 2, 13, 6, 15, 0, 9, 10, 4, 5, 3)
  }

  function S6(r: nat, c: nat): Nibble
    requires r < 4 && c < 16
  {
    match r
    case 0 => Entry(c, 12, 1, 10, 15, 9, 2, 6, 8, 0, 13, 3, 4, 14, 7, 5, 11)
    case 1 => Entry(c, 10, 15, 4, 2, 7, 12, 9, 5, 6, 1, 13, 14, 0, 11, 3, 8)
    case 2 => Entry(c, 9, 14, 15, 5, 2, 8, 12, 3, 7, 0, 4, 10, 1, 13, 11, 6)
    case _ => Entry(c, 4, 3, 2, 12, 9, 5, 15, 10, 11, 14, 1, 7, 6, 0, 8, 13)
  }

  function S7(r: nat, c: nat): Nibble
    requires r < 4 && c < 16
  {
    match r
    case 0 => Entry(c, 4, 11, 2, 14, 15, 0, 8, 13, 3, 12, 9, 7, 5, 10, 6, 1)
    case 1 => Entry(c, 13, 0, 11, 7, 4, 9, 1, 10, 14, 3, 5, 12, 2, 15, 8, 6)
    case 2 => Entry(c, 1, 4, 11, 13, 12, 3, 7, 14, 10, 15, 6, 8, 0, 5, 9, 2)
    case _ => Entry(c, 6, 11, 13, 8, 1, 4, 10, 7, 9, 5, 0, 15, 14, 2, 3, 12)
  }

  function S8(r: nat, c: nat): Nibble
    requires r < 4 && c < 16
  {
    match r
    case 0 => Entry(c, 13, 2, 8, 4, 6, 15, 11, 1, 10, 9, 3, 14, 5, 0, 12, 7)
    case 1 => Entry(c, 1, 15, 13, 8, 10, 3, 7, 4, 12, 5, 6, 11, 0, 14, 9, 2)
    case 2 => Entry(c, 7, 11, 4, 1, 9, 12, 14, 2, 0, 6, 10, 13, 15, 3, 5, 8)
    case _ => Entry(c, 2, 1, 14, 7, 4, 10, 8, 13, 15, 12, 9, 0, 3, 5, 6, 11)
  }

  /** The entry of an S-box in row r and column c. */
  function SBoxAt(i: nat, r: nat, c: nat): Nibble
    requires i < 8 && r < 4 && c < 16
  {
    match i
    case 0 => S1(r, c)
    case 1 => S2(r, c)
    case 2 => S3(r, c)
    case 3 => S4(r, c)
    case 4 => S5(r, c)
    case 5 => S6(r, c)
    case 6 => S7(r, c)
    case _ => S8(r, c)
  }

  /** An S-box, row after row. */
  function SBox(i: nat): (s: seq<Nibble>)
    requires i < 8
    ensures |s| == 64
  {
    seq(64, k requires 0 <= k < 64 => SBoxAt(i, k / 16, k % 16))
  }
}
