/**
 * CRC-32 by table (tools/firmware-utils/src/add_header.c and asustrx.c,
 * scripts/cfe-partition-tag.py) against the definition bit by bit
 * (section 8 of RFC 1952).
 */
module Crc32 {
  import opened Words
  import opened BlockHash

  /** The polynomial, the bits reversed: ntohl(0x2083b8ed) on a little-endian host. */
  const POLY: Word := 0xedb88320

  // ----- bit by bit -----

  /** What one bit shifted out of the register puts back. */
  function Feedback(out: bool): Word { if out then POLY else 0 }

  /** The register shifted by one bit. */
  function Shift(x: Word): Word { Xor(Feedback(Low(x)), x / 2) }

  /** The register after the low `k` bits of `b`, the lowest first. */
  function FeedBits(x: Word, b: nat, k: nat): Word
    decreases k
  {
    if k == 0 then x
    else
      var fed := Low(x) != Low(b);
      FeedBits(Xor(Feedback(fed), x / 2), b / 2, k - 1)
  }

  /** The register after a message, with neither initial nor final inversion. */
  function Serial(x: Word, data: seq<Byte>): Word {
    if data == [] then x else FeedBits(Serial(x, data[..|data| - 1]), data[|data| - 1], 8)
  }

  /** The CRC of a message. */
  function Crc(data: seq<Byte>): Word { Complement(Serial(0xFFFF_FFFF, data)) }

  lemma {:induction false} SerialAppend(x: Word, a: seq<Byte>, b: seq<Byte>)
    ensures Serial(x, a + b) == Serial(Serial(x, a), b)
    decreases |b|
  {
    if b == [] {
      assert a + b == a;
    } else {
      assert (a + b)[..|a + b| - 1] == a + b[..|b| - 1];
      SerialAppend(x, a, b[..|b| - 1]);
    }
  }

  // ----- by table -----

  /** `k` shifts in a row: an entry of the table after eight of them. */
  function Shifts(x: Word, k: nat): Word
    decreases k
  {
    if k == 0 then x else Shifts(Shift(x), k - 1)
  }

  function TableEntry(n: nat): Word
    requires n < 256
  {
    Shifts(n, 8)
  }

  /** One byte by table, in the form of the three programs. */
  function TableStep(crc: Word, b: Byte): Word {
    ByteIndex(crc, b);
    Xor(TableEntry(Xor(crc, b) % 256), crc / 256)
  }

  /** The low `k` bits of a number, and a number moved up by `k` bits. */
  function LowBits(x: nat, k: nat): nat
    decreases k
  {
    if k == 0 then 0 else x % 2 + 2 * LowBits(x / 2, k - 1)
  }

  function Up(x: nat, k: nat): nat
    decreases k
  {
    if k == 0 then x else 2 * Up(x, k - 1)
  }

  lemma SmallMultiple(k: int, d: int)
    requires -d < k * d < d
    ensures k == 0
  {
    var n := if k < 0 then -k else k;
    assert n >= 1 ==> n * d == (n - 1) * d + d;
  }

  lemma DivModUnique(x: nat, d: nat, q: nat, r: nat)
    requires r < d && x == q * d + r
    ensures x / d == q && x % d == r
  {
    assert x == x / d * d + x % d;
    assert (q - x / d) * d == q * d - x / d * d;
    SmallMultiple(q - x / d, d);
  }

  /** Division by an even number begins with division by two. */
  lemma Halve(x: nat, m: nat)
    requires m > 0
    ensures x % (2 * m) == x % 2 + 2 * (x / 2 % m) && x / (2 * m) == x / 2 / m
  {
    var q, r := x / 2 / m, x / 2 % m;
    assert x / 2 == q * m + r;
    assert q * (2 * m) == 2 * (q * m);
    DivModUnique(x, 2 * m, q, 2 * r + x % 2);
  }

  lemma {:induction false} BitsOfByte(x: Word, k: nat)
    requires k <= 8
    ensures LowBits(x, k) == x % Pow2(k) && Shr(x, k) == x / Pow2(k) && Up(x, k) == Pow2(k) * x
    decreases k
  {
    if k > 0 {
      assert Pow2(2) == 4 && Pow2(4) == 16 && Pow2(6) == 64;
      BitsOfByte(x / 2, k - 1);
      UpIsProduct(x, k);
      Halve(x, Pow2(k - 1));
    }
  }

  lemma {:induction false} UpIsProduct(x: nat, k: nat)
    requires k <= 8
    ensures Up(x, k) == Pow2(k) * x
  {
    if k > 0 { UpIsProduct(x, k - 1); }
  }

  lemma EightBits(x: Word)
    ensures LowBits(x, 8) == x % 256 && Shr(x, 8) == x / 256 && Up(x, 8) == 256 * x
  {
    hide LowBits, Shr, Up;
    assert Pow2(4) == 16;
    BitsOfByte(x, 8);
  }

  /** (crc ^ b) & 0xff and (uint8_t)crc ^ b are the same index. */
  lemma ByteIndex(crc: Word, b: Byte)
    ensures Zip(XorGate, crc, b) % 256 == Zip(XorGate, crc % 256, b) < 256
    ensures Zip(XorGate, crc, b) / 256 == crc / 256
  {
    hide Zip, LowBits, Shr;
    assert Pow2(8) == 256;
    XorSplit(crc, b, 8);
    EightBits(crc);
    EightBits(Xor(crc, b));
  }

  /** Exclusive or with a number of `k` bits touches the low `k` bits only. */
  lemma {:induction false} XorSplit(x: Word, y: Word, k: nat)
    requires y < Pow2(k)
    ensures LowBits(Xor(x, y), k) == Zip(XorGate, LowBits(x, k), y)
    ensures Shr(Xor(x, y), k) == Shr(x, k)
    decreases k
  {
    hide Zip;
    if k == 0 {
      XorZero(x);
      XorZero(0);
    } else {
      XorSplit(x / 2, y / 2, k - 1);
      ZipParts(XorGate, x, y);
      ZipParts(XorGate, LowBits(x, k), y);
    }
  }

  // ----- the shift is linear -----

  lemma ExclusiveOrs(a: nat, b: nat, c: nat, d: nat)
    ensures Zip(XorGate, Zip(XorGate, a, b), Zip(XorGate, c, d)) == Zip(XorGate, Zip(XorGate, a, c), Zip(XorGate, b, d))
  {
    hide Zip;
    ZipAssociative(XorGate, a, b, Zip(XorGate, c, d));
    ZipAssociative(XorGate, b, c, d);
    ZipCommutative(XorGate, b, c);
    ZipAssociative(XorGate, c, b, d);
    ZipAssociative(XorGate, a, c, Zip(XorGate, b, d));
  }

  lemma FeedbackIsLinear(a: bool, b: bool)
    ensures Feedback(a != b) == Xor(Feedback(a), Feedback(b))
  {
    hide Zip;
    XorZero(POLY);
    XorZero(0);
    XorSelf(POLY);
  }

  lemma ShiftIsLinear(x: Word, y: Word)
    ensures Shift(Xor(x, y)) == Xor(Shift(x), Shift(y))
  {
    ZipParts(XorGate, x, y);
    FeedbackIsLinear(Low(x), Low(y));
    ExclusiveOrs(Feedback(Low(x)), Feedback(Low(y)), x / 2, y / 2);
  }

  lemma {:induction false} ShiftsAreLinear(x: Word, y: Word, k: nat)
    ensures Shifts(Xor(x, y), k) == Xor(Shifts(x, k), Shifts(y, k))
    decreases k
  {
    hide Zip, Shift;
    if k > 0 {
      ShiftIsLinear(x, y);
      ShiftsAreLinear(Shift(x), Shift(y), k - 1);
    }
  }

  /** Shifting a number with no low bits just moves it down. */
  lemma ShiftOfDouble(y: Word)
    requires 2 * y < TWO_32
    ensures Shift(2 * y) == y
  {
    hide Zip;
    XorZero(y);
  }

  lemma {:induction false} ShiftsDown(y: nat, k: nat)
    requires Up(y, k) < TWO_32
    ensures y < TWO_32 && Shifts(Up(y, k), k) == y
  {
    if k > 0 {
      ShiftOfDouble(Up(y, k - 1));
      ShiftsDown(y, k - 1);
    }
  }

  /** Feeding the bits of a byte one by one is shifting the register with the byte put into it. */
  lemma {:induction false} FeedIsShift(x: Word, b: Word, k: nat)
    requires b < Pow2(k)
    ensures FeedBits(x, b, k) == Shifts(Xor(x, b), k)
    decreases k
  {
    hide Zip;
    if k == 0 {
      XorZero(x);
    } else {
      var fed := Xor(Feedback(Low(x) != Low(b)), x / 2);
      ZipParts(XorGate, x, b);
      ZipAssociative(XorGate, Feedback(Low(x) != Low(b)), x / 2, b / 2);
      assert Shift(Xor(x, b)) == Xor(fed, b / 2);
      FeedIsShift(fed, b / 2, k - 1);
    }
  }

  /** Low and high part of a number, put together again. */
  lemma {:induction false} JoinParts(hi: nat, lo: nat, k: nat)
    requires lo < Pow2(k)
    ensures Zip(XorGate, lo, Up(hi, k)) == Up(hi, k) + lo
  {
    if k == 0 {
      XorZero(hi);
    } else {
      JoinParts(hi, lo / 2, k - 1);
      ZipParts(XorGate, lo, Up(hi, k));
    }
  }

  lemma ByteBound()
    ensures Pow2(8) == 256
  {
    assert Pow2(4) == 16;
  }

  lemma BytesOfWord(x: Word)
    ensures Up(x / 256, 8) < TWO_32 && x == Xor(x % 256, Up(x / 256, 8))
  {
    hide Zip, Up, LowBits, Shr, Pow2;
    EightBits(x / 256);
    ByteBound();
    JoinParts(x / 256, x % 256, 8);
  }

  /** Eight shifts are one look into the table. */
  lemma ShiftsByTable(x: Word)
    ensures Shifts(x, 8) == Xor(TableEntry(x % 256), x / 256)
  {
    hide Xor, Shifts, Up;
    BytesOfWord(x);
    ShiftsAreLinear(x % 256, Up(x / 256, 8), 8);
    ShiftsDown(x / 256, 8);
  }

  /** The table step is eight bits of the definition. */
  lemma TableStepIsSerial(crc: Word, b: Byte)
    ensures TableStep(crc, b) == FeedBits(crc, b, 8)
  {
    hide Zip, Shifts, FeedBits;
    assert Pow2(8) == 256;
    FeedIsShift(crc, b, 8);
    ShiftsByTable(Xor(crc, b));
    ByteIndex(crc, b);
  }

  // ----- the programs -----

  ghost predicate IsTable(table: seq<Word>) {
    |table| == 256 && forall n :: 0 <= n < 256 ==> table[n] == TableEntry(n)
  }

  /** init_crc32 */
  method InitTable() returns (table: array<Word>)
    ensures fresh(table) && IsTable(table[..])
  {
    hide Shift;
    table := new Word[256];
    for n := 0 to 256
      invariant forall i :: 0 <= i < n ==> table[i] == TableEntry(i)
    {
      var crc: Word := n;
      for bit := 0 to 8
        invariant Shifts(crc, 8 - bit) == TableEntry(n)
        invariant forall i :: 0 <= i < n ==> table[i] == TableEntry(i)
      {
        ShiftByCases(crc);
        crc := if Low(crc) then Xor(POLY, Shr(crc, 1)) else Shr(crc, 1);
      }
      table[n] := crc;
    }
  }

  /** The two branches of the inner loop. */
  lemma ShiftByCases(crc: Word)
    ensures Shift(crc) == if Low(crc) then Xor(POLY, Shr(crc, 1)) else Shr(crc, 1)
  {
    hide Zip;
    assert Shr(crc, 1) == Shr(crc / 2, 0) == crc / 2;
    XorZero(crc / 2);
  }

  /** crc32buf: the index is the low byte of the register, combined with the next byte. */
  method CrcOf(table: array<Word>, buf: seq<Byte>) returns (crc: Word)
    requires IsTable(table[..])
    ensures crc == Crc(buf)
  {
    hide Zip, TableEntry, FeedBits;
    crc := 0xFFFF_FFFF;
    for i := 0 to |buf|
      invariant crc == Serial(0xFFFF_FFFF, buf[..i])
    {
      assert buf[..i + 1][..i] == buf[..i];
      ByteIndex(crc, buf[i]);
      EightBits(crc);
      TableStepIsSerial(crc, buf[i]);
      assert table[..][Xor(crc % 256, buf[i])] == table[Xor(crc % 256, buf[i])];
      crc := Xor(table[Xor(crc % 256, buf[i])], Shr(crc, 8));
    }
    assert buf[..|buf|] == buf;
    crc := Complement(crc);
  }
}
