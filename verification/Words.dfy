/** 32-bit words as numbers: sums modulo 2^32, shifts, and bit by bit operations. */
module Words {

  const TWO_32 := 0x1_0000_0000

  type Word = x: int | 0 <= x < TWO_32

  /** The sum modulo 2^32. */
  function Plus(x: Word, y: Word): Word {
    if x + y < TWO_32 then x + y else x + y - TWO_32
  }

  function Pow2(n: nat): (p: nat)
    ensures p > 0
  {
    if n == 0 then 1 else 2 * Pow2(n - 1)
  }

  // ----- operations on single bits -----

  datatype Gate = AndGate | OrGate | XorGate | ButNotGate

  function Bit(g: Gate, a: bool, b: bool): bool {
    match g
    case AndGate => a && b
    case OrGate => a || b
    case XorGate => a != b
    case ButNotGate => !a && b
  }

  predicate Low(x: nat) { x % 2 == 1 }

  /** The gate applied to every pair of bits. */
  function Zip(g: Gate, x: nat, y: nat): nat {
    if x == 0 && y == 0 then 0
    else (if Bit(g, Low(x), Low(y)) then 1 else 0) + 2 * Zip(g, x / 2, y / 2)
  }

  lemma {:induction false} ZipBound(g: Gate, x: nat, y: nat, k: nat)
    requires x < Pow2(k) && y < Pow2(k)
    ensures Zip(g, x, y) < Pow2(k)
  {
    if k > 0 { ZipBound(g, x / 2, y / 2, k - 1); }
  }

  lemma ZipWord(g: Gate, x: Word, y: Word)
    ensures Zip(g, x, y) < TWO_32
  {
    assert Pow2(8) == 0x100;
    assert Pow2(16) == 0x100 * Pow2(8);
    assert Pow2(24) == 0x100 * Pow2(16);
    assert Pow2(32) == 0x100 * Pow2(24);
    ZipBound(g, x, y, 32);
  }

  /** The lowest bit and the remaining bits of a result. */
  lemma ZipParts(g: Gate, x: nat, y: nat)
    ensures Low(Zip(g, x, y)) == Bit(g, Low(x), Low(y))
    ensures Zip(g, x, y) / 2 == Zip(g, x / 2, y / 2)
  {
  }

  function And(x: Word, y: Word): Word { ZipWord(AndGate, x, y); Zip(AndGate, x, y) }

  function Or(x: Word, y: Word): Word { ZipWord(OrGate, x, y); Zip(OrGate, x, y) }

  function Xor(x: Word, y: Word): Word { ZipWord(XorGate, x, y); Zip(XorGate, x, y) }

  /** `~x & y` */
  function ButNot(x: Word, y: Word): Word { ZipWord(ButNotGate, x, y); Zip(ButNotGate, x, y) }

  /** `~x` */
  function Complement(x: Word): Word { TWO_32 - 1 - x }

  /** `x >> n` */
  function Shr(x: Word, n: nat): (r: Word)
    ensures r <= x
  {
    if n == 0 then x else Shr(x / 2, n - 1)
  }

  /** `x << n` */
  function Shl(x: Word, n: nat): Word
    decreases n, x
  {
    if n == 0 then x else Shl(if 2 * x < TWO_32 then 2 * x else 2 * x - TWO_32, n - 1)
  }

  // ----- laws -----

  lemma PlusAssociative(x: Word, y: Word, z: Word)
    ensures Plus(Plus(x, y), z) == Plus(x, Plus(y, z))
  {
  }

  lemma PlusCommutative(x: Word, y: Word)
    ensures Plus(x, y) == Plus(y, x)
  {
  }

  lemma {:induction false} ZipCommutative(g: Gate, x: nat, y: nat)
    requires g != ButNotGate
    ensures Zip(g, x, y) == Zip(g, y, x)
  {
    if x != 0 || y != 0 { ZipCommutative(g, x / 2, y / 2); }
  }

  lemma {:induction false} ZipAssociative(g: Gate, x: nat, y: nat, z: nat)
    requires g != ButNotGate
    ensures Zip(g, Zip(g, x, y), z) == Zip(g, x, Zip(g, y, z))
  {
    if x != 0 || y != 0 || z != 0 {
      ZipParts(g, x, y);
      ZipParts(g, y, z);
      ZipParts(g, Zip(g, x, y), z);
      ZipParts(g, x, Zip(g, y, z));
      ZipAssociative(g, x / 2, y / 2, z / 2);
    }
  }

  lemma {:induction false} XorSelf(x: nat)
    ensures Zip(XorGate, x, x) == 0
  {
    if x != 0 { XorSelf(x / 2); }
  }

  lemma {:induction false} XorZero(x: nat)
    ensures Zip(XorGate, x, 0) == x == Zip(XorGate, 0, x)
  {
    if x != 0 { XorZero(x / 2); }
  }

  /** z ^ (x & (y ^ z)) chooses between y and z, in each of the forms found in the standards. */
  lemma {:induction false} Choose(x: nat, y: nat, z: nat)
    ensures var fast := Zip(XorGate, Zip(AndGate, x, Zip(XorGate, y, z)), z);
            && fast == Zip(XorGate, Zip(AndGate, x, y), Zip(ButNotGate, x, z))
            && fast == Zip(OrGate, Zip(AndGate, x, y), Zip(ButNotGate, x, z))
  {
    if x != 0 || y != 0 || z != 0 {
      Choose(x / 2, y / 2, z / 2);
      ZipParts(XorGate, y, z);
      ZipParts(AndGate, x, Zip(XorGate, y, z));
      ZipParts(XorGate, Zip(AndGate, x, Zip(XorGate, y, z)), z);
      ZipParts(AndGate, x, y);
      ZipParts(ButNotGate, x, z);
      ZipParts(XorGate, Zip(AndGate, x, y), Zip(ButNotGate, x, z));
      ZipParts(OrGate, Zip(AndGate, x, y), Zip(ButNotGate, x, z));
    }
  }

  /** The two forms of the majority. */
  lemma {:induction false} Majority(x: nat, y: nat, z: nat)
    ensures Zip(OrGate, Zip(AndGate, x, Zip(OrGate, y, z)), Zip(AndGate, y, z))
         == Zip(XorGate, Zip(XorGate, Zip(AndGate, x, y), Zip(AndGate, x, z)), Zip(AndGate, y, z))
  {
    if x != 0 || y != 0 || z != 0 {
      Majority(x / 2, y / 2, z / 2);
      ZipParts(OrGate, y, z);
      ZipParts(AndGate, x, y);
      ZipParts(AndGate, x, z);
      ZipParts(AndGate, y, z);
      ZipParts(AndGate, x, Zip(OrGate, y, z));
      ZipParts(XorGate, Zip(AndGate, x, y), Zip(AndGate, x, z));
      ZipParts(OrGate, Zip(AndGate, x, Zip(OrGate, y, z)), Zip(AndGate, y, z));
      ZipParts(XorGate, Zip(XorGate, Zip(AndGate, x, y), Zip(AndGate, x, z)), Zip(AndGate, y, z));
    }
  }
}
