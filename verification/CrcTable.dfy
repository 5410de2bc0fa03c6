/**
 * The table of 256 numbers that scripts/cfe-partition-tag.py and
 * tools/firmware-utils/src/asustrx.c write out, and their use of it.
 */
module CrcTable {
  import opened Words
  import opened BlockHash
  import opened Crc32

  type Digit = x: int | 0 <= x < 16

  const A: Digit := 10
  const B: Digit := 11
  const C: Digit := 12
  const D: Digit := 13
  const E: Digit := 14
  const F: Digit := 15

  /** The number with these hexadecimal digits. */
  function W(d7: Digit, d6: Digit, d5: Digit, d4: Digit, d3: Digit, d2: Digit, d1: Digit, d0: Digit): Word {
    d0 + 16 * (d1 + 16 * (d2 + 16 * (d3 + 16 * (d4 + 16 * (d5 + 16 * (d6 + 16 * d7))))))
  }

  // ----- the rows of sixteen entries -----

  function Row0(): (row: seq<Word>)
    ensures |row| == 16
  {
    [
      W(0, 0, 0, 0, 0, 0, 0, 0), W(7, 7, 0, 7, 3, 0, 9, 6), W(E, E, 0, E, 6, 1, 2, C), W(9, 9, 0, 9, 5, 1, B, A),
      W(0, 7, 6, D, C, 4, 1, 9), W(7, 0, 6, A, F, 4, 8, F), W(E, 9, 6, 3, A, 5, 3, 5), W(9, E, 6, 4, 9, 5, A, 3),
      W(0, E, D, B, 8, 8, 3, 2), W(7, 9, D, C, B, 8, A, 4), W(E, 0, D, 5, E, 9, 1, E), W(9, 7, D, 2, D, 9, 8, 8),
      W(0, 9, B, 6, 4, C, 2, B), W(7, E, B, 1, 7, C, B, D), W(E, 7, B, 8, 2, D, 0, 7), W(9, 0, B, F, 1, D, 9, 1)]
  }

  function Row1(): (row: seq<Word>)
    ensures |row| == 16
  {
    [
      W(1, D, B, 7, 1, 0, 6, 4), W(6, A, B, 0, 2, 0, F, 2), W(F, 3, B, 9, 7, 1, 4, 8), W(8, 4, B, E, 4, 1, D, E),
      W(1, A, D, A, D, 4, 7, D), W(6, D, D, D, E, 4, E, B), W(F, 4, D, 4, B, 5, 5, 1), W(8, 3, D, 3, 8, 5, C, 7),
      W(1, 3, 6, C, 9, 8, 5, 6), W(6, 4, 6, B, A, 8, C, 0), W(F, D, 6, 2, F, 9, 7, A), W(8, A, 6, 5, C, 9, E, C),
      W(1, 4, 0, 1, 5, C, 4, F), W(6, 3, 0, 6, 6, C, D, 9), W(F, A, 0, F, 3, D, 6, 3), W(8, D, 0, 8, 0, D, F, 5)]
  }

  function Row2(): (row: seq<Word>)
    ensures |row| == 16
  {
    [
      W(3, B, 6, E, 2, 0, C, 8), W(4, C, 6, 9, 1, 0, 5, E), W(D, 5, 6, 0, 4, 1, E, 4), W(A, 2, 6, 7, 7, 1, 7, 2),
      W(3, C, 0, 3, E, 4, D, 1), W(4, B, 0, 4, D, 4, 4, 7), W(D, 2, 0, D, 8, 5, F, D), W(A, 5, 0, A, B, 5, 6, B),
      W(3, 5, B, 5, A, 8, F, A), W(4, 2, B, 2, 9, 8, 6, C), W(D, B, B, B, C, 9, D, 6), W(A, C, B, C, F, 9, 4, 0),
      W(3, 2, D, 8, 6, C, E, 3), W(4, 5, D, F, 5, C, 7, 5), W(D, C, D, 6, 0, D, C, F), W(A, B, D, 1, 3, D, 5, 9)]
  }

  function Row3(): (row: seq<Word>)
    ensures |row| == 16
  {
    [
      W(2, 6, D, 9, 3, 0, A, C), W(5, 1, D, E, 0, 0, 3, A), W(C, 8, D, 7, 5, 1, 8, 0), W(B, F, D, 0, 6, 1, 1, 6),
      W(2, 1, B, 4, F, 4, B, 5), W(5, 6, B, 3, C, 4, 2, 3), W(C, F, B, A, 9, 5, 9, 9), W(B, 8, B, D, A, 5, 0, F),
      W(2, 8, 0, 2, B, 8, 9, E), W(5, F, 0, 5, 8, 8, 0, 8), W(C, 6, 0, C, D, 9, B, 2), W(B, 1, 0, B, E, 9, 2, 4),
      W(2, F, 6, F, 7, C, 8, 7), W(5, 8, 6, 8, 4, C, 1, 1), W(C, 1, 6, 1, 1, D, A, B), W(B, 6, 6, 6, 2, D, 3, D)]
  }

  function Row4(): (row: seq<Word>)
    ensures |row| == 16
  {
    [
      W(7, 6, D, C, 4, 1, 9, 0), W(0, 1, D, B, 7, 1, 0, 6), W(9, 8, D, 2, 2, 0, B, C), W(E, F, D, 5, 1, 0, 2, A),
      W(7, 1, B, 1, 8, 5, 8, 9), W(0, 6, B, 6, B, 5, 1, F), W(9, F, B, F, E, 4, A, 5), W(E, 8, B, 8, D, 4, 3, 3),
      W(7, 8, 0, 7, C, 9, A, 2), W(0, F, 0, 0, F, 9, 3, 4), W(9, 6, 0, 9, A, 8, 8, E), W(E, 1, 0, E, 9, 8, 1, 8),
      W(7, F, 6, A, 0, D, B, B), W(0, 8, 6, D, 3, D, 2, D), W(9, 1, 6, 4, 6, C, 9, 7), W(E, 6, 6, 3, 5, C, 0, 1)]
  }

  function Row5(): (row: seq<Word>)
    ensures |row| == 16
  {
    [
      W(6, B, 6, B, 5, 1, F, 4), W(1, C, 6, C, 6, 1, 6, 2), W(8, 5, 6, 5, 3, 0, D, 8), W(F, 2, 6, 2, 0, 0, 4, E),
      W(6, C, 0, 6, 9, 5, E, D), W(1, B, 0, 1, A, 5, 7, B), W(8, 2, 0, 8, F, 4, C, 1), W(F, 5, 0, F, C, 4, 5, 7),
      W(6, 5, B, 0, D, 9, C, 6), W(1, 2, B, 7, E, 9, 5, 0), W(8, B, B, E, B, 8, E, A), W(F, C, B, 9, 8, 8, 7, C),
      W(6, 2, D, D, 1, D, D, F), W(1, 5, D, A, 2, D, 4, 9), W(8, C, D, 3, 7, C, F, 3), W(F, B, D, 4, 4, C, 6, 5)]
  }

  function Row6(): (row: seq<Word>)
    ensures |row| == 16
  {
    [
      W(4, D, B, 2, 6, 1, 5, 8), W(3, A, B, 5, 5, 1, C, E), W(A, 3, B, C, 0, 0, 7, 4), W(D, 4, B, B, 3, 0, E, 2),
      W(4, A, D, F, A, 5, 4, 1), W(3, D, D, 8, 9, 5, D, 7), W(A, 4, D, 1, C, 4, 6, D), W(D, 3, D, 6, F, 4, F, B),
      W(4, 3, 6, 9, E, 9, 6, A), W(3, 4, 6, E, D, 9, F, C), W(A, D, 6, 7, 8, 8, 4, 6), W(D, A, 6, 0, B, 8, D, 0),
      W(4, 4, 0, 4, 2, D, 7, 3), W(3, 3, 0, 3, 1, D, E, 5), W(A, A, 0, A, 4, C, 5, F), W(D, D, 0, D, 7, C, C, 9)]
  }

  function Row7(): (row: seq<Word>)
    ensures |row| == 16
  {
    [
      W(5, 0, 0, 5, 7, 1, 3, C), W(2, 7, 0, 2, 4, 1, A, A), W(B, E, 0, B, 1, 0, 1, 0), W(C, 9, 0, C, 2, 0, 8, 6),
      W(5, 7, 6, 8, B, 5, 2, 5), W(2, 0, 6, F, 8, 5, B, 3), W(B, 9, 6, 6, D, 4, 0, 9), W(C, E, 6, 1, E, 4, 9, F),
      W(5, E, D, E, F, 9, 0, E), W(2, 9, D, 9, C, 9, 9, 8), W(B, 0, D, 0, 9, 8, 2, 2), W(C, 7, D, 7, A, 8, B, 4),
      W(5, 9, B, 3, 3, D, 1, 7), W(2, E, B, 4, 0, D, 8, 1), W(B, 7, B, D, 5, C, 3, B), W(C, 0, B, A, 6, C, A, D)]
  }

  function Row8(): (row: seq<Word>)
    ensures |row| == 16
  {
    [
      W(E, D, B, 8, 8, 3, 2, 0), W(9, A, B, F, B, 3, B, 6), W(0, 3, B, 6, E, 2, 0, C), W(7, 4, B, 1, D, 2, 9, A),
      W(E, A, D, 5, 4, 7, 3, 9), W(9, D, D, 2, 7, 7, A, F), W(0, 4, D, B, 2, 6, 1, 5), W(7, 3, D, C, 1, 6, 8, 3),
      W(E, 3, 6, 3, 0, B, 1, 2), W(9, 4, 6, 4, 3, B, 8, 4), W(0, D, 6, D, 6, A, 3, E), W(7, A, 6, A, 5, A, A, 8),
      W(E, 4, 0, E, C, F, 0, B), W(9, 3, 0, 9, F, F, 9, D), W(0, A, 0, 0, A, E, 2, 7), W(7, D, 0, 7, 9, E, B, 1)]
  }

  function Row9(): (row: seq<Word>)
    ensures |row| == 16
  {
    [
      W(F, 0, 0, F, 9, 3, 4, 4), W(8, 7, 0, 8, A, 3, D, 2), W(1, E, 0, 1, F, 2, 6, 8), W(6, 9, 0, 6, C, 2, F, E),
      W(F, 7, 6, 2, 5, 7, 5, D), W(8, 0, 6, 5, 6, 7, C, B), W(1, 9, 6, C, 3, 6, 7, 1), W(6, E, 6, B, 0, 6, E, 7),
      W(F, E, D, 4, 1, B, 7, 6), W(8, 9, D, 3, 2, B, E, 0), W(1, 0, D, A, 7, A, 5, A), W(6, 7, D, D, 4, A, C, C),
      W(F, 9, B, 9, D, F, 6, F), W(8, E, B, E, E, F, F, 9), W(1, 7, B, 7, B, E, 4, 3), W(6, 0, B, 0, 8, E, D, 5)]
  }

  function Row10(): (row: seq<Word>)
    ensures |row| == 16
  {
    [
      W(D, 6, D, 6, A, 3, E, 8), W(A, 1, D, 1, 9, 3, 7, E), W(3, 8, D, 8, C, 2, C, 4), W(4, F, D, F, F, 2, 5, 2),
      W(D, 1, B, B, 6, 7, F, 1), W(A, 6, B, C, 5, 7, 6, 7), W(3, F, B, 5, 0, 6, D, D), W(4, 8, B, 2, 3, 6, 4, B),
      W(D, 8, 0, D, 2, B, D, A), W(A, F, 0, A, 1, B, 4, C), W(3, 6, 0, 3, 4, A, F, 6), W(4, 1, 0, 4, 7, A, 6, 0),
      W(D, F, 6, 0, E, F, C, 3), W(A, 8, 6, 7, D, F, 5, 5), W(3, 1, 6, E, 8, E, E, F), W(4, 6, 6, 9, B, E, 7, 9)]
  }

  function Row11(): (row: seq<Word>)
    ensures |row| == 16
  {
    [
      W(C, B, 6, 1, B, 3, 8, C), W(B, C, 6, 6, 8, 3, 1, A), W(2, 5, 6, F, D, 2, A, 0), W(5, 2, 6, 8, E, 2, 3, 6),
      W(C, C, 0, C, 7, 7, 9, 5), W(B, B, 0, B, 4, 7, 0, 3), W(2, 2, 0, 2, 1, 6, B, 9), W(5, 5, 0, 5, 2, 6, 2, F),
      W(C, 5, B, A, 3, B, B, E), W(B, 2, B, D, 0, B, 2, 8), W(2, B, B, 4, 5, A, 9, 2), W(5, C, B, 3, 6, A, 0, 4),
      W(C, 2, D, 7, F, F, A, 7), W(B, 5, D, 0, C, F, 3, 1), W(2, C, D, 9, 9, E, 8, B), W(5, B, D, E, A, E, 1, D)]
  }

  function Row12(): (row: seq<Word>)
    ensures |row| == 16
  {
    [
      W(9, B, 6, 4, C, 2, B, 0), W(E, C, 6, 3, F, 2, 2, 6), W(7, 5, 6, A, A, 3, 9, C), W(0, 2, 6, D, 9, 3, 0, A),
      W(9, C, 0, 9, 0, 6, A, 9), W(E, B, 0, E, 3, 6, 3, F), W(7, 2, 0, 7, 6, 7, 8, 5), W(0, 5, 0, 0, 5, 7, 1, 3),
      W(9, 5, B, F, 4, A, 8, 2), W(E, 2, B, 8, 7, A, 1, 4), W(7, B, B, 1, 2, B, A, E), W(0, C, B, 6, 1, B, 3, 8),
      W(9, 2, D, 2, 8, E, 9, B), W(E, 5, D, 5, B, E, 0, D), W(7, C, D, C, E, F, B, 7), W(0, B, D, B, D, F, 2, 1)]
  }

  function Row13(): (row: seq<Word>)
    ensures |row| == 16
  {
    [
      W(8, 6, D, 3, D, 2, D, 4), W(F, 1, D, 4, E, 2, 4, 2), W(6, 8, D, D, B, 3, F, 8), W(1, F, D, A, 8, 3, 6, E),
      W(8, 1, B, E, 1, 6, C, D), W(F, 6, B, 9, 2, 6, 5, B), W(6, F, B, 0, 7, 7, E, 1), W(1, 8, B, 7, 4, 7, 7, 7),
      W(8, 8, 0, 8, 5, A, E, 6), W(F, F, 0, F, 6, A, 7, 0), W(6, 6, 0, 6, 3, B, C, A), W(1, 1, 0, 1, 0, B, 5, C),
      W(8, F, 6, 5, 9, E, F, F), W(F, 8, 6, 2, A, E, 6, 9), W(6, 1, 6, B, F, F, D, 3), W(1, 6, 6, C, C, F, 4, 5)]
  }

  function Row14(): (row: seq<Word>)
    ensures |row| == 16
  {
    [
      W(A, 0, 0, A, E, 2, 7, 8), W(D, 7, 0, D, D, 2, E, E), W(4, E, 0, 4, 8, 3, 5, 4), W(3, 9, 0, 3, B, 3, C, 2),
      W(A, 7, 6, 7, 2, 6, 6, 1), W(D, 0, 6, 0, 1, 6, F, 7), W(4, 9, 6, 9, 4, 7, 4, D), W(3, E, 6, E, 7, 7, D, B),
      W(A, E, D, 1, 6, A, 4, A), W(D, 9, D, 6, 5, A, D, C), W(4, 0, D, F, 0, B, 6, 6), W(3, 7, D, 8, 3, B, F, 0),
      W(A, 9, B, C, A, E, 5, 3), W(D, E, B, B, 9, E, C, 5), W(4, 7, B, 2, C, F, 7, F), W(3, 0, B, 5, F, F, E, 9)]
  }

  function Row15(): (row: seq<Word>)
    ensures |row| == 16
  {
    [
      W(B, D, B, D, F, 2, 1, C), W(C, A, B, A, C, 2, 8, A), W(5, 3, B, 3, 9, 3, 3, 0), W(2, 4, B, 4, A, 3, A, 6),
      W(B, A, D, 0, 3, 6, 0, 5), W(C, D, D, 7, 0, 6, 9, 3), W(5, 4, D, E, 5, 7, 2, 9), W(2, 3, D, 9, 6, 7, B, F),
      W(B, 3, 6, 6, 7, A, 2, E), W(C, 4, 6, 1, 4, A, B, 8), W(5, D, 6, 8, 1, B, 0, 2), W(2, A, 6, F, 2, B, 9, 4),
      W(B, 4, 0, B, B, E, 3, 7), W(C, 3, 0, C, 8, E, A, 1), W(5, A, 0, 5, D, F, 1, B), W(2, D, 0, 2, E, F, 8, D)]
  }

  function Rows(): seq<seq<Word>> {
    [Row0(), Row1(), Row2(), Row3(), Row4(), Row5(), Row6(), Row7(),
     Row8(), Row9(), Row10(), Row11(), Row12(), Row13(), Row14(), Row15()]
  }

  function Joined(rows: seq<seq<Word>>): seq<Word> {
    if rows == [] then [] else Joined(rows[..|rows| - 1]) + rows[|rows| - 1]
  }

  /** The table as written. */
  function Table(): seq<Word> { Joined(Rows()) }

  // ----- exclusive or digit by digit -----

  function Below(a: nat, m: nat): nat { if a >= m then a - m else a }

  function Top(a: nat, b: nat, m: nat): nat { if (a >= m) != (b >= m) then m else 0 }

  function DigitXor(a: Digit, b: Digit): Digit {
    var a2, b2 := if a >= 8 then a - 8 else a, if b >= 8 then b - 8 else b;
    var a1, b1 := if a2 >= 4 then a2 - 4 else a2, if b2 >= 4 then b2 - 4 else b2;
    var a0, b0 := if a1 >= 2 then a1 - 2 else a1, if b1 >= 2 then b1 - 2 else b1;
    (if (a >= 8) != (b >= 8) then 8 else 0) + (if (a2 >= 4) != (b2 >= 4) then 4 else 0)
    + (if (a1 >= 2) != (b1 >= 2) then 2 else 0) + if (a0 >= 1) != (b0 >= 1) then 1 else 0
  }

  /** The high and the low part of numbers do not meet. */
  lemma {:induction false} XorOfParts(x: nat, a: nat, y: nat, b: nat, k: nat)
    requires a < Pow2(k) && b < Pow2(k)
    ensures Zip(XorGate, Up(x, k) + a, Up(y, k) + b) == Up(Zip(XorGate, x, y), k) + Zip(XorGate, a, b)
    decreases k
  {
    if k == 0 {
      XorZero(0);
    } else {
      assert (Up(x, k) + a) / 2 == Up(x, k - 1) + a / 2 && (Up(y, k) + b) / 2 == Up(y, k - 1) + b / 2;
      XorOfParts(x, a / 2, y, b / 2, k - 1);
      ZipParts(XorGate, Up(x, k) + a, Up(y, k) + b);
      ZipParts(XorGate, a, b);
    }
  }

  lemma XorOfTop(a: nat, b: nat, k: nat, m: nat)
    requires m == Pow2(k) && k <= 8 && a < 2 * m && b < 2 * m
    ensures Zip(XorGate, a, b) == Top(a, b, m) + Zip(XorGate, Below(a, m), Below(b, m))
  {
    hide Zip, Up, Pow2;
    var p, q := if a >= m then 1 else 0, if b >= m then 1 else 0;
    UpIsProduct(p, k);
    UpIsProduct(q, k);
    XorOfParts(p, Below(a, m), q, Below(b, m), k);
    XorSelf(p);
    XorZero(p);
    XorZero(q);
    UpIsProduct(Zip(XorGate, p, q), k);
  }

  lemma SmallPowers()
    ensures Pow2(0) == 1 && Pow2(1) == 2 && Pow2(2) == 4 && Pow2(3) == 8
    ensures Pow2(4) == 16 && Pow2(5) == 32 && Pow2(6) == 64 && Pow2(7) == 128
  {
    assert Pow2(3) == 8;
  }

  lemma DigitXorIsXor(a: Digit, b: Digit)
    ensures DigitXor(a, b) == Zip(XorGate, a, b)
  {
    SmallPowers();
    XorZero(0);
    hide Zip, Pow2, DigitXor;
    var a2, b2 := Below(a, 8), Below(b, 8);
    var a1, b1 := Below(a2, 4), Below(b2, 4);
    var a0, b0 := Below(a1, 2), Below(b1, 2);
    XorOfTop(a, b, 3, 8);
    XorOfTop(a2, b2, 2, 4);
    XorOfTop(a1, b1, 1, 2);
    XorOfTop(a0, b0, 0, 1);
    DigitXorParts(a, b);
  }

  lemma DigitXorParts(a: Digit, b: Digit)
    ensures var a2, b2 := Below(a, 8), Below(b, 8);
            var a1, b1 := Below(a2, 4), Below(b2, 4);
            DigitXor(a, b) == Top(a, b, 8) + Top(a2, b2, 4) + Top(a1, b1, 2) + Top(Below(a1, 2), Below(b1, 2), 1)
  {
  }

  lemma XorOfDigit(a: Digit, x: nat, b: Digit, y: nat)
    ensures Zip(XorGate, a + 16 * x, b + 16 * y) == DigitXor(a, b) + 16 * Zip(XorGate, x, y)
  {
    hide Zip, Up;
    DigitXorIsXor(a, b);
    assert Pow2(4) == 16;
    UpIsProduct(x, 4);
    UpIsProduct(y, 4);
    UpIsProduct(Zip(XorGate, x, y), 4);
    XorOfParts(x, a, y, b, 4);
  }

  lemma XorOfDigits(a7: Digit, a6: Digit, a5: Digit, a4: Digit, a3: Digit, a2: Digit, a1: Digit, a0: Digit,
                    b7: Digit, b6: Digit, b5: Digit, b4: Digit, b3: Digit, b2: Digit, b1: Digit, b0: Digit)
    ensures Zip(XorGate, W(a7, a6, a5, a4, a3, a2, a1, a0), W(b7, b6, b5, b4, b3, b2, b1, b0))
         == W(DigitXor(a7, b7), DigitXor(a6, b6), DigitXor(a5, b5), DigitXor(a4, b4),
              DigitXor(a3, b3), DigitXor(a2, b2), DigitXor(a1, b1), DigitXor(a0, b0))
  {
    hide Zip, DigitXor;
    var x6, y6 := a6 + 16 * a7, b6 + 16 * b7;
    var x5, y5 := a5 + 16 * x6, b5 + 16 * y6;
    var x4, y4 := a4 + 16 * x5, b4 + 16 * y5;
    var x3, y3 := a3 + 16 * x4, b3 + 16 * y4;
    var x2, y2 := a2 + 16 * x3, b2 + 16 * y3;
    var x1, y1 := a1 + 16 * x2, b1 + 16 * y2;
    XorOfDigit(a0, x1, b0, y1);
    XorOfDigit(a1, x2, b1, y2);
    XorOfDigit(a2, x3, b2, y3);
    XorOfDigit(a3, x4, b3, y4);
    XorOfDigit(a4, x5, b4, y5);
    XorOfDigit(a5, x6, b5, y6);
    XorOfDigit(a6, a7, b6, b7);
    DigitXorIsXor(a7, b7);
  }

  lemma XorOfAllDigits()
    ensures forall a7, a6, a5, a4, a3, a2, a1, a0, b7, b6, b5, b4, b3, b2, b1, b0: Digit
      {:trigger Zip(XorGate, W(a7, a6, a5, a4, a3, a2, a1, a0), W(b7, b6, b5, b4, b3, b2, b1, b0))} ::
      Zip(XorGate, W(a7, a6, a5, a4, a3, a2, a1, a0), W(b7, b6, b5, b4, b3, b2, b1, b0))
         == W(DigitXor(a7, b7), DigitXor(a6, b6), DigitXor(a5, b5), DigitXor(a4, b4),
              DigitXor(a3, b3), DigitXor(a2, b2), DigitXor(a1, b1), DigitXor(a0, b0))
  {
    forall a7: Digit, a6: Digit, a5: Digit, a4: Digit, a3: Digit, a2: Digit, a1: Digit, a0: Digit,
           b7: Digit, b6: Digit, b5: Digit, b4: Digit, b3: Digit, b2: Digit, b1: Digit, b0: Digit
      ensures Zip(XorGate, W(a7, a6, a5, a4, a3, a2, a1, a0), W(b7, b6, b5, b4, b3, b2, b1, b0))
           == W(DigitXor(a7, b7), DigitXor(a6, b6), DigitXor(a5, b5), DigitXor(a4, b4),
                DigitXor(a3, b3), DigitXor(a2, b2), DigitXor(a1, b1), DigitXor(a0, b0))
    {
      XorOfDigits(a7, a6, a5, a4, a3, a2, a1, a0, b7, b6, b5, b4, b3, b2, b1, b0);
    }
  }

  // ----- the numbers as written -----

  /** Every number of the row `r` is the first one of the row combined with the number above it in the row `f`. */
  ghost predicate Sums(r: seq<Word>, f: seq<Word>) {
    && |r| == 16 && |f| == 16
    && r[1] == Zip(XorGate, r[0], f[1]) && r[2] == Zip(XorGate, r[0], f[2]) && r[3] == Zip(XorGate, r[0], f[3])
    && r[4] == Zip(XorGate, r[0], f[4]) && r[5] == Zip(XorGate, r[0], f[5]) && r[6] == Zip(XorGate, r[0], f[6])
    && r[7] == Zip(XorGate, r[0], f[7]) && r[8] == Zip(XorGate, r[0], f[8]) && r[9] == Zip(XorGate, r[0], f[9])
    && r[10] == Zip(XorGate, r[0], f[10]) && r[11] == Zip(XorGate, r[0], f[11]) && r[12] == Zip(XorGate, r[0], f[12])
    && r[13] == Zip(XorGate, r[0], f[13]) && r[14] == Zip(XorGate, r[0], f[14]) && r[15] == Zip(XorGate, r[0], f[15])
  }

  /** The numbers at 0, 1, 2, 4 and 8 determine the others. */
  ghost predicate FromPowers(s: seq<Word>) {
    && |s| == 16 && s[0] == 0
    && s[3] == Zip(XorGate, s[2], s[1]) && s[5] == Zip(XorGate, s[4], s[1]) && s[6] == Zip(XorGate, s[4], s[2])
    && s[7] == Zip(XorGate, s[4], s[3]) && s[9] == Zip(XorGate, s[8], s[1]) && s[10] == Zip(XorGate, s[8], s[2])
    && s[11] == Zip(XorGate, s[8], s[3]) && s[12] == Zip(XorGate, s[8], s[4]) && s[13] == Zip(XorGate, s[8], s[5])
    && s[14] == Zip(XorGate, s[8], s[6]) && s[15] == Zip(XorGate, s[8], s[7])
  }

  /** The numbers with which the rows begin. */
  function Column(rows: seq<seq<Word>>): seq<Word> {
    seq(|rows|, h requires 0 <= h < |rows| => if rows[h] != [] then rows[h][0] else 0)
  }

  /** The entry of 128 is the polynomial, and of two powers the smaller one has the other's entry, shifted. */
  ghost predicate PowersRight(first: seq<Word>, column: seq<Word>) {
    && |first| == 16 && |column| == 16
    && first[1] == Shift(first[2]) && first[2] == Shift(first[4]) && first[4] == Shift(first[8])
    && first[8] == Shift(column[1]) && column[1] == Shift(column[2]) && column[2] == Shift(column[4])
    && column[4] == Shift(column[8]) && column[8] == POLY
  }

  ghost predicate Consistent(rows: seq<seq<Word>>) {
    && |rows| == 16
    && FromPowers(rows[0]) && FromPowers(Column(rows)) && PowersRight(rows[0], Column(rows))
    && forall h :: 0 < h < 16 ==> Sums(rows[h], rows[0])
  }

  lemma Sums1To3()
    ensures Sums(Row1(), Row0()) && Sums(Row2(), Row0()) && Sums(Row3(), Row0())
  {
    hide W, Zip;
    XorOfAllDigits();
  }

  lemma Sums4To6()
    ensures Sums(Row4(), Row0()) && Sums(Row5(), Row0()) && Sums(Row6(), Row0())
  {
    hide W, Zip;
    XorOfAllDigits();
  }

  lemma Sums7To9()
    ensures Sums(Row7(), Row0()) && Sums(Row8(), Row0()) && Sums(Row9(), Row0())
  {
    hide W, Zip;
    XorOfAllDigits();
  }

  lemma Sums10To12()
    ensures Sums(Row10(), Row0()) && Sums(Row11(), Row0()) && Sums(Row12(), Row0())
  {
    hide W, Zip;
    XorOfAllDigits();
  }

  lemma Sums13To15()
    ensures Sums(Row13(), Row0()) && Sums(Row14(), Row0()) && Sums(Row15(), Row0())
  {
    hide W, Zip;
    XorOfAllDigits();
  }

  lemma FirstEntry()
    ensures Row0()[0] == 0
  {
  }

  lemma FirstRow()
    ensures FromPowers(Row0())
  {
    FirstEntry();
    hide W, Zip;
    XorOfAllDigits();
  }

  lemma FirstColumn()
    ensures FromPowers(Column(Rows()))
  {
    FirstEntry();
    hide W, Zip;
    XorOfAllDigits();
  }

  lemma AllSums(h: nat)
    requires 0 < h < 16
    ensures |Rows()| == 16 && Sums(Rows()[h], Row0())
  {
    hide Sums, Row0, Row1, Row2, Row3, Row4, Row5, Row6, Row7, Row8, Row9, Row10, Row11, Row12, Row13, Row14, Row15;
    if h <= 3 {
      Sums1To3();
    } else if h <= 6 {
      Sums4To6();
    } else if h <= 9 {
      Sums7To9();
    } else if h <= 12 {
      Sums10To12();
    } else {
      Sums13To15();
    }
  }

  lemma ShiftEven(x: Word, y: Word)
    requires x == 2 * y
    ensures Shift(x) == y
  {
    ShiftOfDouble(y);
  }

  lemma ShiftOdd(x: Word, y: Word)
    requires x == 2 * y + 1
    ensures Shift(x) == Zip(XorGate, POLY, y)
  {
    hide Zip;
  }

  lemma PowerNumbers()
    ensures Row0()[1] == 0x77073096 && Row0()[2] == 0xee0e612c && Row0()[4] == 0x076dc419 && Row0()[8] == 0x0edb8832
  {
  }

  lemma PowerRows()
    ensures Row1()[0] == 0x1db71064 && Row2()[0] == 0x3b6e20c8 && Row4()[0] == 0x76dc4190 && Row8()[0] == POLY
  {
  }

  lemma OddPower()
    ensures Zip(XorGate, POLY, 0x03b6e20c) == 0xee0e612c
  {
    XorOfDigits(E, D, B, 8, 8, 3, 2, 0, 0, 3, B, 6, E, 2, 0, C);
    hide Zip;
  }

  lemma Powers()
    ensures PowersRight(Row0(), Column(Rows()))
  {
    hide Shift, Zip;
    hide Row0, Row1, Row2, Row3, Row4, Row5, Row6, Row7, Row8, Row9, Row10, Row11, Row12, Row13, Row14, Row15;
    PowerNumbers();
    PowerRows();
    OddPower();
    ShiftEven(POLY, 0x76dc4190);
    ShiftEven(0x76dc4190, 0x3b6e20c8);
    ShiftEven(0x3b6e20c8, 0x1db71064);
    ShiftEven(0x1db71064, 0x0edb8832);
    ShiftEven(0x0edb8832, 0x076dc419);
    ShiftOdd(0x076dc419, 0x03b6e20c);
    ShiftEven(0xee0e612c, 0x77073096);
  }

  lemma RowsAreConsistent()
    ensures Consistent(Rows())
  {
    FirstRow();
    FirstColumn();
    Powers();
    hide Sums, FromPowers, PowersRight, Column;
    hide Row0, Row1, Row2, Row3, Row4, Row5, Row6, Row7, Row8, Row9, Row10, Row11, Row12, Row13, Row14, Row15;
    forall h | 0 < h < 16 ensures Sums(Rows()[h], Rows()[0]) {
      AllSums(h);
    }
  }

  // ----- consistent rows are the table -----

  lemma SumsAt(r: seq<Word>, f: seq<Word>, l: nat)
    requires Sums(r, f) && f[0] == 0 && l < 16
    ensures |r| == 16 && r[l] == Zip(XorGate, r[0], f[l])
  {
    hide Zip;
    XorZero(r[0]);
  }

  lemma {:induction false} ShiftsOut(x: Word, k: nat)
    ensures Shifts(x, k + 1) == Shift(Shifts(x, k))
    decreases k
  {
    hide Shift;
    if k > 0 { ShiftsOut(Shift(x), k - 1); }
  }

  lemma HalfEntry(n: nat)
    requires n < 128
    ensures TableEntry(n) == Shift(TableEntry(2 * n))
  {
    hide Shift;
    ShiftOfDouble(n);
    ShiftsOut(n, 7);
  }

  lemma LastPower()
    ensures TableEntry(128) == POLY
  {
    hide Zip, Shifts;
    assert Up(1, 7) == 128 by { UpIsProduct(1, 7); assert Pow2(7) == 128; }
    ShiftsDown(1, 7);
    ShiftsOut(128, 7);
    XorZero(POLY);
  }

  /** Entries are combined like the numbers they are for. */
  lemma EntrySum(x: nat, m: nat, r: nat, k: nat)
    requires m == Pow2(k) * x && r < Pow2(k) && m + r < 256 && k <= 8
    ensures TableEntry(m + r) == Zip(XorGate, TableEntry(m), TableEntry(r))
  {
    hide Zip, Shifts, Pow2;
    UpIsProduct(x, k);
    JoinParts(x, r, k);
    ShiftsAreLinear(r, m, 8);
    ZipCommutative(XorGate, TableEntry(m), TableEntry(r));
  }

  lemma {:induction false} ShiftsOfZero(k: nat)
    ensures Shifts(0, k) == 0
    decreases k
  {
    if k > 0 {
      ShiftOfDouble(0);
      ShiftsOfZero(k - 1);
    }
  }

  /** The entries of the powers of two. */
  lemma PowerEntries(first: seq<Word>, column: seq<Word>)
    requires PowersRight(first, column)
    ensures first[1] == TableEntry(1) && first[2] == TableEntry(2)
    ensures first[4] == TableEntry(4) && first[8] == TableEntry(8)
    ensures column[1] == TableEntry(16) && column[2] == TableEntry(32)
    ensures column[4] == TableEntry(64) && column[8] == TableEntry(128)
  {
    hide Shift, TableEntry;
    LastPower();
    HalfEntry(64);
    HalfEntry(32);
    HalfEntry(16);
    HalfEntry(8);
    HalfEntry(4);
    HalfEntry(2);
    HalfEntry(1);
  }

  lemma FromPowersSum(s: seq<Word>, m: nat, r: nat)
    requires FromPowers(s) && (m == 2 || m == 4 || m == 8) && r < m
    ensures s[m + r] == Zip(XorGate, s[m], s[r])
  {
    hide Zip;
    XorZero(s[m]);
  }

  /** The first row, or the first column, where the entries are `n` apart. */
  lemma {:induction false} FromPowersAt(s: seq<Word>, n: nat, l: nat)
    requires FromPowers(s) && l < 16 && (n == 1 || n == 16)
    requires s[1] == TableEntry(n) && s[2] == TableEntry(2 * n)
    requires s[4] == TableEntry(4 * n) && s[8] == TableEntry(8 * n)
    ensures s[l] == TableEntry(if n == 1 then l else 16 * l)
    decreases l
  {
    hide Zip, TableEntry, FromPowers, Pow2;
    if l == 0 {
      ZeroEntry(s);
    } else if l > 1 {
      var m := if l >= 8 then 8 else if l >= 4 then 4 else 2;
      FromPowersSum(s, m, l - m);
      FromPowersAt(s, n, l - m);
      SmallPowers();
      if n == 1 {
        EntrySum(1, m, l - m, if l >= 8 then 3 else if l >= 4 then 2 else 1);
      } else {
        EntrySum(1, 16 * m, 16 * (l - m), if l >= 8 then 7 else if l >= 4 then 6 else 5);
      }
    }
  }

  lemma ZeroEntry(s: seq<Word>)
    requires FromPowers(s)
    ensures s[0] == TableEntry(0)
  {
    hide Zip, Shifts;
    ShiftsOfZero(8);
  }

  lemma EntryAt(rows: seq<seq<Word>>, h: nat, l: nat)
    requires Consistent(rows) && h < 16 && l < 16
    ensures |rows[h]| == 16 && rows[h][l] == TableEntry(16 * h + l)
  {
    hide Zip, TableEntry, Pow2, PowersRight, FromPowers, Sums;
    var column := Column(rows);
    PowerEntries(rows[0], column);
    FromPowersAt(rows[0], 1, l);
    FromPowersAt(column, 16, h);
    SmallPowers();
    EntrySum(h, 16 * h, l, 4);
    RowSum(rows, h, l);
  }

  lemma RowSum(rows: seq<seq<Word>>, h: nat, l: nat)
    requires Consistent(rows) && h < 16 && l < 16
    ensures |rows[h]| == 16 && |rows[0]| == 16 && |Column(rows)| == 16
    ensures rows[h][l] == Zip(XorGate, Column(rows)[h], rows[0][l])
  {
    FirstIsZero(rows[0]);
    hide Zip, PowersRight, FromPowers, Sums;
    if h == 0 {
      XorZero(rows[0][l]);
    } else {
      SumsAt(rows[h], rows[0], l);
    }
  }

  lemma FirstIsZero(s: seq<Word>)
    requires FromPowers(s)
    ensures |s| == 16 && s[0] == 0
  {
  }

  lemma {:induction false} JoinedAt(rows: seq<seq<Word>>, h: nat, l: nat)
    requires forall i :: 0 <= i < |rows| ==> |rows[i]| == 16
    ensures |Joined(rows)| == 16 * |rows|
    ensures h < |rows| && l < 16 ==> Joined(rows)[16 * h + l] == rows[h][l]
  {
    if rows != [] { JoinedAt(rows[..|rows| - 1], h, l); }
  }

  /** The table as written is the computed one. */
  lemma TableIsRight()
    ensures IsTable(Table())
  {
    RowsAreConsistent();
    hide Rows, Consistent, TableEntry;
    RowsGiveTable(Rows());
  }

  lemma RowLengths(rows: seq<seq<Word>>)
    requires Consistent(rows)
    ensures |rows| == 16 && forall h :: 0 <= h < |rows| ==> |rows[h]| == 16
  {
    hide TableEntry, Sums, FromPowers, PowersRight;
    forall h | 0 <= h < |rows| ensures |rows[h]| == 16 { RowSum(rows, h, 0); }
  }

  lemma JoinedEntry(rows: seq<seq<Word>>, n: nat)
    requires Consistent(rows) && n < 256
    ensures |Joined(rows)| == 256 && Joined(rows)[n] == TableEntry(n)
  {
    hide Consistent, TableEntry, Joined;
    RowLengths(rows);
    JoinedAt(rows, n / 16, n % 16);
    EntryAt(rows, n / 16, n % 16);
  }

  lemma RowsGiveTable(rows: seq<seq<Word>>)
    requires Consistent(rows)
    ensures IsTable(Joined(rows))
  {
    hide Consistent, TableEntry, Joined;
    JoinedEntry(rows, 0);
    forall n | 0 <= n < 256 ensures Joined(rows)[n] == TableEntry(n) {
      JoinedEntry(rows, n);
    }
  }

  // ----- the programs that use it -----

  /** crc32 of the tag script, which continues a given register and does not invert the result. */
  method Continue(bytes: seq<Byte>, size: nat, start: Word) returns (crc: Word)
    requires size <= |bytes|
    ensures crc == Serial(start, bytes[..size])
  {
    TableIsRight();
    var table := Table();
    hide Zip, TableEntry, FeedBits, Table;
    crc := start;
    var i := 0;
    while i < size
      invariant 0 <= i <= size && crc == Serial(start, bytes[..i])
    {
      assert bytes[..i + 1][..i] == bytes[..i];
      ByteIndex(crc, bytes[i]);
      EightBits(crc);
      TableStepIsSerial(crc, bytes[i]);
      ZipCommutative(XorGate, crc / 256, TableEntry(Xor(crc, bytes[i]) % 256));
      crc := Xor(Shr(crc, 8), table[Xor(crc, bytes[i]) % 256]);
      i := i + 1;
    }
  }

  /** The header of a trx file up to its flags, which the CRC does not cover. */
  const TRX_FLAGS_OFFSET: nat := 12

  /**
   * The reading loop of asustrx: the register over all chunks is the register over the whole,
   * and the length counts the part of the header before it.
   */
  method OverChunks(chunks: seq<seq<Byte>>) returns (crc: Word, length: nat)
    ensures crc == Serial(0xFFFF_FFFF, Concat(chunks)) && length == TRX_FLAGS_OFFSET + |Concat(chunks)|
    ensures Complement(crc) == Crc(Concat(chunks))
  {
    TableIsRight();
    var table := Table();
    hide Zip, TableEntry, FeedBits, Table, Serial;
    crc, length := 0xFFFF_FFFF, TRX_FLAGS_OFFSET;
    NothingFed(crc);
    for c := 0 to |chunks|
      invariant crc == Serial(0xFFFF_FFFF, Concat(chunks[..c]))
      invariant length == TRX_FLAGS_OFFSET + |Concat(chunks[..c])|
    {
      assert chunks[..c + 1][..c] == chunks[..c];
      SerialAppend(0xFFFF_FFFF, Concat(chunks[..c]), chunks[c]);
      length := length + |chunks[c]|;
      ghost var before := crc;
      NothingFed(crc);
      for i := 0 to |chunks[c]|
        invariant crc == Serial(before, chunks[c][..i])
      {
        ByteFed(before, chunks[c], i);
        ByteIndex(crc, chunks[c][i]);
        EightBits(crc);
        crc := Xor(table[Xor(crc, chunks[c][i]) % 256], Shr(crc, 8));
      }
      assert chunks[c][..|chunks[c]|] == chunks[c];
    }
    assert chunks[..|chunks|] == chunks;
  }

  /** One more byte of a buffer. */
  lemma ByteFed(x: Word, buf: seq<Byte>, i: nat)
    requires i < |buf|
    ensures Serial(x, buf[..i + 1]) == TableStep(Serial(x, buf[..i]), buf[i])
  {
    hide Zip, TableEntry, FeedBits, TableStep;
    assert buf[..i + 1][..i] == buf[..i];
    TableStepIsSerial(Serial(x, buf[..i]), buf[i]);
  }

  lemma NothingFed(x: Word)
    ensures Serial(x, []) == x
  {
  }
}
