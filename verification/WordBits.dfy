/** What the operations on words do to single bits. */
module WordBits {
  import opened Words

  /** Bit `i` of a number, the lowest being bit 0. */
  predicate BitAt(x: nat, i: nat) {
    if i == 0 then x % 2 == 1 else BitAt(x / 2, i - 1)
  }

  lemma {:induction false} ZipBit(g: Gate, x: nat, y: nat, i: nat)
    ensures BitAt(Zip(g, x, y), i) == Bit(g, BitAt(x, i), BitAt(y, i))
    decreases i
  {
    ZipParts(g, x, y);
    if i > 0 { ZipBit(g, x / 2, y / 2, i - 1); }
  }

  /** A number below 2^i has no bit `i`. */
  lemma {:induction false} NoHighBit(x: nat, i: nat)
    requires x < Pow2(i)
    ensures !BitAt(x, i)
    decreases i
  {
    if i > 0 { NoHighBit(x / 2, i - 1); }
  }

  /** Subtracting 2^k leaves the lower bits. */
  lemma {:induction false} LowerBits(x: nat, k: nat, i: nat)
    requires x >= Pow2(k) && i < k
    ensures BitAt(x - Pow2(k), i) == BitAt(x, i)
    decreases i
  {
    assert (x - Pow2(k)) / 2 == x / 2 - Pow2(k - 1) && (x - Pow2(k)) % 2 == x % 2;
    if i > 0 { LowerBits(x / 2, k - 1, i - 1); }
  }

  lemma PowersOfWord()
    ensures Pow2(31) == 0x8000_0000 && Pow2(32) == TWO_32
  {
    assert Pow2(8) == 0x100;
    assert Pow2(16) == 0x100 * Pow2(8);
    assert Pow2(24) == 0x100 * Pow2(16);
    assert Pow2(31) == 0x80 * Pow2(24);
  }

  lemma {:induction false} PowersGrow(i: nat, j: nat)
    requires i <= j
    ensures Pow2(i) <= Pow2(j)
    decreases j
  {
    if i < j { PowersGrow(i, j - 1); }
  }

  /** A word has 32 bits. */
  lemma WordHasNoHighBit(x: Word, i: nat)
    requires i >= 32
    ensures !BitAt(x, i)
  {
    PowersOfWord();
    PowersGrow(32, i);
    NoHighBit(x, i);
  }

  lemma {:induction false} ShrBit(x: Word, n: nat, i: nat)
    ensures BitAt(Shr(x, n), i) == BitAt(x, i + n)
    decreases n
  {
    if n > 0 { ShrBit(x / 2, n - 1, i); }
  }

  lemma {:induction false} ShlBit(x: Word, n: nat, i: nat)
    requires i < 32
    ensures BitAt(Shl(x, n), i) == (i >= n && BitAt(x, i - n))
    decreases n
  {
    if n > 0 {
      var y: Word := if 2 * x < TWO_32 then 2 * x else 2 * x - TWO_32;
      DoubleBit(x, i);
      if i >= n - 1 { DoubleBit(x, i - (n - 1)); }
      ShlBit(y, n - 1, i);
    }
  }

  lemma DoubleBit(x: Word, i: nat)
    requires i < 32
    ensures BitAt(if 2 * x < TWO_32 then 2 * x else 2 * x - TWO_32, i) == (i > 0 && BitAt(x, i - 1))
  {
    PowersOfWord();
    if 2 * x < TWO_32 {
      assert i > 0 ==> 2 * x / 2 == x;
    } else if i > 0 {
      assert (2 * x - TWO_32) / 2 == x - Pow2(31);
      LowerBits(x, 31, i - 1);
    }
  }

  lemma {:induction false} ComplementBits(x: nat, k: nat, i: nat)
    requires x < Pow2(k) && i < k
    ensures BitAt(Pow2(k) - 1 - x, i) == !BitAt(x, i)
    decreases i
  {
    assert (Pow2(k) - 1 - x) / 2 == Pow2(k - 1) - 1 - x / 2;
    if i > 0 { ComplementBits(x / 2, k - 1, i - 1); }
  }

  /** The operations of C on each of the 32 bits. */
  lemma OperationsByBit(x: Word, y: Word, i: nat)
    requires i < 32
    ensures BitAt(And(x, y), i) == (BitAt(x, i) && BitAt(y, i))
    ensures BitAt(Or(x, y), i) == (BitAt(x, i) || BitAt(y, i))
    ensures BitAt(Xor(x, y), i) == (BitAt(x, i) != BitAt(y, i))
    ensures BitAt(ButNot(x, y), i) == (!BitAt(x, i) && BitAt(y, i))
    ensures BitAt(Complement(x), i) == !BitAt(x, i)
  {
    ZipBit(AndGate, x, y, i);
    ZipBit(OrGate, x, y, i);
    ZipBit(XorGate, x, y, i);
    ZipBit(ButNotGate, x, y, i);
    PowersOfWord();
    ComplementBits(x, 32, i);
  }

  /** The sum of two words is the sum modulo 2^32. */
  lemma PlusIsModular(x: Word, y: Word)
    ensures Plus(x, y) == (x + y) % TWO_32
  {
  }
}
