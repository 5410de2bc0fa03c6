/** Bit by bit: the functions of SHA-256 (section 4.1.2 of FIPS 180-4) and of MD5 (section 3.4 of RFC 1321). */
module HashBits {
  import opened BlockHash
  import opened WordBits
  import opened Words
  import Md5
  import Sha256

  lemma RotrBit(x: Word, n: nat, i: nat)
    requires n < 32 && i < 32
    ensures BitAt(Sha256.Rotr(x, n), i) == BitAt(x, (i + n) % 32)
  {
    hide Or, Zip, Shl, Shr, BitAt;
    OperationsByBit(Shr(x, n), Shl(x, 32 - n), i);
    ShrBit(x, n, i);
    ShlBit(x, 32 - n, i);
    if i + n >= 32 { WordHasNoHighBit(x, i + n); }
  }

  lemma XorBits(x: Word, y: Word, z: Word, i: nat)
    requires i < 32
    ensures BitAt(Xor(Xor(x, y), z), i) == ((BitAt(x, i) != BitAt(y, i)) != BitAt(z, i))
  {
    hide Xor, BitAt;
    OperationsByBit(x, y, i);
    OperationsByBit(Xor(x, y), z, i);
  }

  /** The four sigma functions: which bits each bit is the exclusive or of. */
  lemma SigmaBits(x: Word, i: nat)
    requires i < 32
    ensures BitAt(Sha256.BigSigma0(x), i)
            == ((BitAt(x, (i + 2) % 32) != BitAt(x, (i + 13) % 32)) != BitAt(x, (i + 22) % 32))
    ensures BitAt(Sha256.BigSigma1(x), i)
            == ((BitAt(x, (i + 6) % 32) != BitAt(x, (i + 11) % 32)) != BitAt(x, (i + 25) % 32))
    ensures BitAt(Sha256.Sigma0(x), i)
            == ((BitAt(x, (i + 7) % 32) != BitAt(x, (i + 18) % 32)) != (i + 3 < 32 && BitAt(x, i + 3)))
    ensures BitAt(Sha256.Sigma1(x), i)
            == ((BitAt(x, (i + 17) % 32) != BitAt(x, (i + 19) % 32)) != (i + 10 < 32 && BitAt(x, i + 10)))
  {
    hide Xor, BitAt, Sha256.Rotr, Shr;
    Rotations(x, 2, 13, 22, i);
    Rotations(x, 6, 11, 25, i);
    Rotations(x, 7, 18, 17, i);
    RotrBit(x, 19, i);
    ShrBit(x, 3, i);
    ShrBit(x, 10, i);
    if i + 3 >= 32 { WordHasNoHighBit(x, i + 3); }
    if i + 10 >= 32 { WordHasNoHighBit(x, i + 10); }
    XorBits(Sha256.Rotr(x, 2), Sha256.Rotr(x, 13), Sha256.Rotr(x, 22), i);
    XorBits(Sha256.Rotr(x, 6), Sha256.Rotr(x, 11), Sha256.Rotr(x, 25), i);
    XorBits(Sha256.Rotr(x, 7), Sha256.Rotr(x, 18), Shr(x, 3), i);
    XorBits(Sha256.Rotr(x, 17), Sha256.Rotr(x, 19), Shr(x, 10), i);
  }

  lemma Rotations(x: Word, n1: nat, n2: nat, n3: nat, i: nat)
    requires n1 < 32 && n2 < 32 && n3 < 32 && i < 32
    ensures BitAt(Sha256.Rotr(x, n1), i) == BitAt(x, (i + n1) % 32)
    ensures BitAt(Sha256.Rotr(x, n2), i) == BitAt(x, (i + n2) % 32)
    ensures BitAt(Sha256.Rotr(x, n3), i) == BitAt(x, (i + n3) % 32)
  {
    RotrBit(x, n1, i);
    RotrBit(x, n2, i);
    RotrBit(x, n3, i);
  }

  /** Ch chooses, Maj is the majority. */
  lemma ChoiceAndMajorityBits(x: Word, y: Word, z: Word, i: nat)
    requires i < 32
    ensures BitAt(Sha256.Ch(x, y, z), i) == if BitAt(x, i) then BitAt(y, i) else BitAt(z, i)
    ensures BitAt(Sha256.Maj(x, y, z), i)
         == ((BitAt(x, i) && (BitAt(y, i) || BitAt(z, i))) || (BitAt(y, i) && BitAt(z, i)))
  {
    hide Xor, And, ButNot, BitAt;
    OperationsByBit(x, y, i);
    OperationsByBit(x, z, i);
    OperationsByBit(y, z, i);
    OperationsByBit(And(x, y), ButNot(x, z), i);
    XorBits(And(x, y), And(x, z), And(y, z), i);
  }

  /** The rotation of MD5 goes to the left. */
  lemma RotlBit(x: Word, s: nat, i: nat)
    requires s < 32 && i < 32
    ensures BitAt(Md5.Rotl(x, s), (i + s) % 32) == BitAt(x, i)
  {
    hide Or, Zip, Shl, Shr, BitAt;
    var j := (i + s) % 32;
    OperationsByBit(Shl(x, s), Shr(x, 32 - s), j);
    ShlBit(x, s, j);
    ShrBit(x, 32 - s, j);
    if j >= s { WordHasNoHighBit(x, j + (32 - s)); }
  }

  /** The four functions of MD5 on single bits. */
  lemma MixerBits(x: Word, y: Word, z: Word, i: nat)
    requires i < 32
    ensures BitAt(Md5.F(x, y, z), i) == if BitAt(x, i) then BitAt(y, i) else BitAt(z, i)
    ensures BitAt(Md5.G(x, y, z), i) == if BitAt(z, i) then BitAt(x, i) else BitAt(y, i)
    ensures BitAt(Md5.H(x, y, z), i) == ((BitAt(x, i) != BitAt(y, i)) != BitAt(z, i))
    ensures BitAt(Md5.I(x, y, z), i) == (BitAt(y, i) != (BitAt(x, i) || !BitAt(z, i)))
  {
    hide Xor, And, Or, ButNot, Complement, BitAt;
    OperationsByBit(x, y, i);
    OperationsByBit(x, z, i);
    OperationsByBit(z, y, i);
    OperationsByBit(And(x, y), ButNot(x, z), i);
    OperationsByBit(And(x, z), ButNot(z, y), i);
    XorBits(x, y, z, i);
    OperationsByBit(x, Complement(z), i);
    OperationsByBit(y, Or(x, Complement(z)), i);
  }

  /** MD5 reads words with the lowest byte first. */
  lemma WordOfIsLittleEndian(block: Block, k: nat)
    requires k < 16
    ensures LittleEndian(Md5.WordOf(block, k), 4) == block[4 * k..4 * k + 4]
  {
    var b0: int, b1: int, b2: int, b3: int := block[4 * k], block[4 * k + 1], block[4 * k + 2], block[4 * k + 3];
    var w := Md5.WordOf(block, k);
    assert w == b0 + 0x100 * (b1 + 0x100 * (b2 + 0x100 * b3));
    assert w % 0x100 == b0 && w / 0x100 == b1 + 0x100 * (b2 + 0x100 * b3);
    assert LittleEndian(b3, 1) == [b3];
    assert LittleEndian(b2 + 0x100 * b3, 2) == [b2] + LittleEndian(b3, 1);
    assert LittleEndian(b1 + 0x100 * (b2 + 0x100 * b3), 3) == [b1] + LittleEndian(b2 + 0x100 * b3, 2);
  }

  /** MD5 starts with the bytes 01 to ef and fe to 10, in this order. */
  lemma Md5StartsWithBytes()
    ensures Md5.Digest(Md5.INITIAL) == [0x01, 0x23, 0x45, 0x67, 0x89, 0xab, 0xcd, 0xef,
                                        0xfe, 0xdc, 0xba, 0x98, 0x76, 0x54, 0x32, 0x10]
  {
    hide LittleEndian;
    FourBytes(0x67, 0x45, 0x23, 0x01);
    FourBytes(0xef, 0xcd, 0xab, 0x89);
    FourBytes(0x98, 0xba, 0xdc, 0xfe);
    FourBytes(0x10, 0x32, 0x54, 0x76);
  }

  lemma FourBytes(b3: Byte, b2: Byte, b1: Byte, b0: Byte)
    ensures LittleEndian(b3 * 0x100_0000 + b2 * 0x1_0000 + b1 * 0x100 + b0, 4) == [b0, b1, b2, b3]
  {
    var w := b3 * 0x100_0000 + b2 * 0x1_0000 + b1 * 0x100 + b0;
    assert w % 0x100 == b0 && w / 0x100 == b3 * 0x1_0000 + b2 * 0x100 + b1;
    assert LittleEndian(b3, 1) == [b3];
    assert LittleEndian(b3 * 0x100 + b2, 2) == [b2] + LittleEndian(b3, 1);
    assert LittleEndian(b3 * 0x1_0000 + b2 * 0x100 + b1, 3) == [b1] + LittleEndian(b3 * 0x100 + b2, 2);
  }
}
