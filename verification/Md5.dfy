/**
 * MD5: the block transform and the incremental hash of scripts/mkhash.c
 * against sections 3.1 to 3.5 of RFC 1321.
 */
module Md5 {
  import opened Basics
  import opened BlockHash
  import opened Words

  // ----- RFC 1321 -----

  function Rotl(x: Word, s: nat): Word
    requires s <= 32
  {
    Or(Shl(x, s), Shr(x, 32 - s))
  }

  function F(x: Word, y: Word, z: Word): Word { Or(And(x, y), ButNot(x, z)) }

  function G(x: Word, y: Word, z: Word): Word { Or(And(x, z), ButNot(z, y)) }

  function H(x: Word, y: Word, z: Word): Word { Xor(Xor(x, y), z) }

  function I(x: Word, y: Word, z: Word): Word { Xor(y, Or(x, Complement(z))) }

  /** The function of a round. */
  function Mixer(round: nat): (Word, Word, Word) -> Word {
    if round == 0 then F else if round == 1 then G else if round == 2 then H else I
  }

  /** The word that step `i` of a round reads. */
  function Source(round: nat, i: nat): (k: nat)
    ensures k < 16
  {
    if round == 0 then i % 16
    else if round == 1 then (5 * i + 1) % 16
    else if round == 2 then (3 * i + 5) % 16
    else 7 * i % 16
  }

  /** How far step `i` of a round rotates. */
  function Turn(round: nat, i: nat): (s: nat)
    ensures 0 < s < 32
  {
    var j := i % 4;
    if round == 0 then if j == 0 then 7 else if j == 1 then 12 else if j == 2 then 17 else 22
    else if round == 1 then if j == 0 then 5 else if j == 1 then 9 else if j == 2 then 14 else 20
    else if round == 2 then if j == 0 then 4 else if j == 1 then 11 else if j == 2 then 16 else 23
    else if j == 0 then 6 else if j == 1 then 10 else if j == 2 then 15 else 21
  }

  /** The table T: the constant of step `i` of a round. */
  function Sine(round: nat, i: nat): Word {
    if round == 0 then Sine0(i) else if round == 1 then Sine1(i) else if round == 2 then Sine2(i) else Sine3(i)
  }

  function Sine0(i: nat): Word {
    match i
    case 0 => 0xd76aa478
    case 1 => 0xe8c7b756
    case 2 => 0x242070db
    case 3 => 0xc1bdceee
    case 4 => 0xf57c0faf
    case 5 => 0x4787c62a
    case 6 => 0xa8304613
    case 7 => 0xfd469501
    case 8 => 0x698098d8
    case 9 => 0x8b44f7af
    case 10 => 0xffff5bb1
    case 11 => 0x895cd7be
    case 12 => 0x6b901122
    case 13 => 0xfd987193
    case 14 => 0xa679438e
    case _ => 0x49b40821
  }

  function Sine1(i: nat): Word {
    match i
    case 0 => 0xf61e2562
    case 1 => 0xc040b340
    case 2 => 0x265e5a51
    case 3 => 0xe9b6c7aa
    case 4 => 0xd62f105d
    case 5 => 0x02441453
    case 6 => 0xd8a1e681
    case 7 => 0xe7d3fbc8
    case 8 => 0x21e1cde6
    case 9 => 0xc33707d6
    case 10 => 0xf4d50d87
    case 11 => 0x455a14ed
    case 12 => 0xa9e3e905
    case 13 => 0xfcefa3f8
    case 14 => 0x676f02d9
    case _ => 0x8d2a4c8a
  }

  function Sine2(i: nat): Word {
    match i
    case 0 => 0xfffa3942
    case 1 => 0x8771f681
    case 2 => 0x6d9d6122
    case 3 => 0xfde5380c
    case 4 => 0xa4beea44
    case 5 => 0x4bdecfa9
    case 6 => 0xf6bb4b60
    case 7 => 0xbebfbc70
    case 8 => 0x289b7ec6
    case 9 => 0xeaa127fa
    case 10 => 0xd4ef3085
    case 11 => 0x04881d05
    case 12 => 0xd9d4d039
    case 13 => 0xe6db99e5
    case 14 => 0x1fa27cf8
    case _ => 0xc4ac5665
  }

  function Sine3(i: nat): Word {
    match i
    case 0 => 0xf4292244
    case 1 => 0x432aff97
    case 2 => 0xab9423a7
    case 3 => 0xfc93a039
    case 4 => 0x655b59c3
    case 5 => 0x8f0ccc92
    case 6 => 0xffeff47d
    case 7 => 0x85845dd1
    case 8 => 0x6fa87e4f
    case 9 => 0xfe2ce6e0
    case 10 => 0xa3014314
    case 11 => 0x4e0811a1
    case 12 => 0xf7537e82
    case 13 => 0xbd3af235
    case 14 => 0x2ad7d2bb
    case _ => 0xeb86d391
  }

  /** The four words of a state. */
  datatype Quad = Quad(a: Word, b: Word, c: Word, d: Word)

  const INITIAL := Quad(0x67452301, 0xefcdab89, 0x98badcfe, 0x10325476)

  /** The word `k` of a block, the least significant byte first. */
  function WordOf(block: Block, k: nat): Word
    requires k < 16
  {
    var b0: int, b1: int, b2: int, b3: int := block[4 * k], block[4 * k + 1], block[4 * k + 2], block[4 * k + 3];
    b0 + b1 * 0x100 + b2 * 0x1_0000 + b3 * 0x100_0000
  }

  /** One step, which renames the words: the new value becomes b. */
  function Step(q: Quad, round: nat, x: Word, t: Word, s: nat): Quad
    requires s <= 32
  {
    Quad(q.d, Plus(q.b, Rotl(Plus(Plus(Plus(q.a, Mixer(round)(q.b, q.c, q.d)), x), t), s)), q.b, q.c)
  }

  /** The state after `i` steps of a round. */
  function Steps(v: Quad, block: Block, round: nat, i: nat): Quad
    decreases round, i
  {
    if i == 0 then if round == 0 then v else Steps(v, block, round - 1, 16)
    else
      Step(Steps(v, block, round, i - 1), round,
           WordOf(block, Source(round, i - 1)), Sine(round, i - 1), Turn(round, i - 1))
  }

  function AddQuads(v: Quad, w: Quad): Quad {
    Quad(Plus(v.a, w.a), Plus(v.b, w.b), Plus(v.c, w.c), Plus(v.d, w.d))
  }

  function Compress(v: Quad, block: Block): Quad { AddQuads(Steps(v, block, 3, 16), v) }

  function Digest(v: Quad): seq<Byte> {
    LittleEndian(v.a, 4) + LittleEndian(v.b, 4) + LittleEndian(v.c, 4) + LittleEndian(v.d, 4)
  }

  /** The padded message, which ends with the low 64 bits of the length in bits, low word first. */
  function PaddedMessage(msg: seq<Byte>): (r: seq<Byte>)
    ensures |r| % 64 == 0
  {
    Padded(msg, LittleEndian(BitCount(|msg|), 8))
  }

  function Hash(msg: seq<Byte>): seq<Byte> {
    Digest(Fold(Compress, INITIAL, PaddedMessage(msg)))
  }

  // ----- the macros of the program -----

  function FastF(x: Word, y: Word, z: Word): Word { Xor(z, And(x, Xor(y, z))) }

  function FastG(x: Word, y: Word, z: Word): Word { Xor(y, And(z, Xor(x, y))) }

  /** H in the other order. */
  function H2(x: Word, y: Word, z: Word): Word { Xor(x, Xor(y, z)) }

  lemma FastForms(x: Word, y: Word, z: Word)
    ensures FastF(x, y, z) == F(x, y, z) && FastG(x, y, z) == G(x, y, z) && H2(x, y, z) == H(x, y, z)
  {
    hide Zip;
    Choose(x, y, z);
    ZipCommutative(XorGate, z, And(x, Xor(y, z)));
    Choose(z, x, y);
    ZipCommutative(XorGate, y, And(z, Xor(x, y)));
    ZipCommutative(AndGate, x, z);
    ZipAssociative(XorGate, x, y, z);
  }

  /** The two additions and the rotation that STEP makes with the value `f` of the mixing function. */
  function Stepped(a: Word, b: Word, f: Word, x: Word, t: Word, s: nat): Word
    requires s <= 32
  {
    Plus(Rotl(Plus(a, Plus(Plus(f, x), t)), s), b)
  }

  lemma SteppedOrder(a: Word, b: Word, f: Word, x: Word, t: Word, s: nat)
    requires s <= 32
    ensures Stepped(a, b, f, x, t, s) == Plus(b, Rotl(Plus(Plus(Plus(a, f), x), t), s))
  {
    hide Rotl;
    PlusAssociative(a, Plus(f, x), t);
    PlusAssociative(a, f, x);
    PlusCommutative(Rotl(Plus(a, Plus(Plus(f, x), t)), s), b);
  }

  /** What one use of STEP needs to be step `i` of the round. */
  predicate Fits(round: nat, i: nat, k: nat, t: Word, s: nat) {
    k == Source(round, i) && t == Sine(round, i) && s == Turn(round, i)
  }

  lemma OneStep(v: Quad, block: Block, round: nat, i: nat, q: Quad, f: Word, k: nat, t: Word, s: nat)
    requires q == Steps(v, block, round, i) && f == Mixer(round)(q.b, q.c, q.d) && Fits(round, i, k, t, s)
    ensures Quad(q.d, Stepped(q.a, q.b, f, WordOf(block, k), t, s), q.b, q.c) == Steps(v, block, round, i + 1)
  {
    hide Rotl, WordOf, Sine, Mixer, Plus;
    SteppedOrder(q.a, q.b, f, WordOf(block, k), t, s);
  }

  /** Four uses of STEP, in which the words change their roles and come back to them. */
  method FourSteps(round: nat, i: nat, q: Quad, f: (Word, Word, Word) -> Word, g: (Word, Word, Word) -> Word,
                   block: Block, k: (nat, nat, nat, nat), t: (Word, Word, Word, Word), s: (nat, nat, nat, nat),
                   ghost v: Quad)
    returns (r: Quad)
    requires forall x, y, z :: f(x, y, z) == Mixer(round)(x, y, z)
    requires forall x, y, z :: g(x, y, z) == Mixer(round)(x, y, z)
    requires Fits(round, i, k.0, t.0, s.0) && Fits(round, i + 1, k.1, t.1, s.1)
    requires Fits(round, i + 2, k.2, t.2, s.2) && Fits(round, i + 3, k.3, t.3, s.3)
    requires q == Steps(v, block, round, i)
    ensures r == Steps(v, block, round, i + 4)
  {
    hide Steps, Stepped, WordOf, Mixer, Sine;
    var a, b, c, d := q.a, q.b, q.c, q.d;
    OneStep(v, block, round, i, Quad(a, b, c, d), f(b, c, d), k.0, t.0, s.0);
    a := Stepped(a, b, f(b, c, d), WordOf(block, k.0), t.0, s.0);
    OneStep(v, block, round, i + 1, Quad(d, a, b, c), g(a, b, c), k.1, t.1, s.1);
    d := Stepped(d, a, g(a, b, c), WordOf(block, k.1), t.1, s.1);
    OneStep(v, block, round, i + 2, Quad(c, d, a, b), f(d, a, b), k.2, t.2, s.2);
    c := Stepped(c, d, f(d, a, b), WordOf(block, k.2), t.2, s.2);
    OneStep(v, block, round, i + 3, Quad(b, c, d, a), g(c, d, a), k.3, t.3, s.3);
    b := Stepped(b, c, g(c, d, a), WordOf(block, k.3), t.3, s.3);
    r := Quad(a, b, c, d);
  }

  method Round1(q: Quad, block: Block, ghost v: Quad) returns (r: Quad)
    requires q == Steps(v, block, 0, 0)
    ensures r == Steps(v, block, 0, 16)
  {
    hide Steps;
    forall x, y, z ensures FastF(x, y, z) == Mixer(0)(x, y, z) && FastF(x, y, z) == Mixer(0)(x, y, z) {
      FastForms(x, y, z);
    }
    r := FourSteps(0, 0, q, FastF, FastF, block, (0, 1, 2, 3),
                   (0xd76aa478, 0xe8c7b756, 0x242070db, 0xc1bdceee), (7, 12, 17, 22), v);
    r := FourSteps(0, 4, r, FastF, FastF, block, (4, 5, 6, 7),
                   (0xf57c0faf, 0x4787c62a, 0xa8304613, 0xfd469501), (7, 12, 17, 22), v);
    r := FourSteps(0, 8, r, FastF, FastF, block, (8, 9, 10, 11),
                   (0x698098d8, 0x8b44f7af, 0xffff5bb1, 0x895cd7be), (7, 12, 17, 22), v);
    r := FourSteps(0, 12, r, FastF, FastF, block, (12, 13, 14, 15),
                   (0x6b901122, 0xfd987193, 0xa679438e, 0x49b40821), (7, 12, 17, 22), v);
  }

  method Round2(q: Quad, block: Block, ghost v: Quad) returns (r: Quad)
    requires q == Steps(v, block, 1, 0)
    ensures r == Steps(v, block, 1, 16)
  {
    hide Steps;
    forall x, y, z ensures FastG(x, y, z) == Mixer(1)(x, y, z) && FastG(x, y, z) == Mixer(1)(x, y, z) {
      FastForms(x, y, z);
    }
    r := FourSteps(1, 0, q, FastG, FastG, block, (1, 6, 11, 0),
                   (0xf61e2562, 0xc040b340, 0x265e5a51, 0xe9b6c7aa), (5, 9, 14, 20), v);
    r := FourSteps(1, 4, r, FastG, FastG, block, (5, 10, 15, 4),
                   (0xd62f105d, 0x02441453, 0xd8a1e681, 0xe7d3fbc8), (5, 9, 14, 20), v);
    r := FourSteps(1, 8, r, FastG, FastG, block, (9, 14, 3, 8),
                   (0x21e1cde6, 0xc33707d6, 0xf4d50d87, 0x455a14ed), (5, 9, 14, 20), v);
    r := FourSteps(1, 12, r, FastG, FastG, block, (13, 2, 7, 12),
                   (0xa9e3e905, 0xfcefa3f8, 0x676f02d9, 0x8d2a4c8a), (5, 9, 14, 20), v);
  }

  method Round3(q: Quad, block: Block, ghost v: Quad) returns (r: Quad)
    requires q == Steps(v, block, 2, 0)
    ensures r == Steps(v, block, 2, 16)
  {
    hide Steps;
    forall x, y, z ensures H(x, y, z) == Mixer(2)(x, y, z) && H2(x, y, z) == Mixer(2)(x, y, z) {
      FastForms(x, y, z);
    }
    r := FourSteps(2, 0, q, H, H2, block, (5, 8, 11, 14),
                   (0xfffa3942, 0x8771f681, 0x6d9d6122, 0xfde5380c), (4, 11, 16, 23), v);
    r := FourSteps(2, 4, r, H, H2, block, (1, 4, 7, 10),
                   (0xa4beea44, 0x4bdecfa9, 0xf6bb4b60, 0xbebfbc70), (4, 11, 16, 23), v);
    r := FourSteps(2, 8, r, H, H2, block, (13, 0, 3, 6),
                   (0x289b7ec6, 0xeaa127fa, 0xd4ef3085, 0x04881d05), (4, 11, 16, 23), v);
    r := FourSteps(2, 12, r, H, H2, block, (9, 12, 15, 2),
                   (0xd9d4d039, 0xe6db99e5, 0x1fa27cf8, 0xc4ac5665), (4, 11, 16, 23), v);
  }

  method Round4(q: Quad, block: Block, ghost v: Quad) returns (r: Quad)
    requires q == Steps(v, block, 3, 0)
    ensures r == Steps(v, block, 3, 16)
  {
    hide Steps;
    forall x, y, z ensures I(x, y, z) == Mixer(3)(x, y, z) && I(x, y, z) == Mixer(3)(x, y, z) {
      FastForms(x, y, z);
    }
    r := FourSteps(3, 0, q, I, I, block, (0, 7, 14, 5),
                   (0xf4292244, 0x432aff97, 0xab9423a7, 0xfc93a039), (6, 10, 15, 21), v);
    r := FourSteps(3, 4, r, I, I, block, (12, 3, 10, 1),
                   (0x655b59c3, 0x8f0ccc92, 0xffeff47d, 0x85845dd1), (6, 10, 15, 21), v);
    r := FourSteps(3, 8, r, I, I, block, (8, 15, 6, 13),
                   (0x6fa87e4f, 0xfe2ce6e0, 0xa3014314, 0x4e0811a1), (6, 10, 15, 21), v);
    r := FourSteps(3, 12, r, I, I, block, (4, 11, 2, 9),
                   (0xf7537e82, 0xbd3af235, 0x2ad7d2bb, 0xeb86d391), (6, 10, 15, 21), v);
  }

  lemma RoundsFollow(v: Quad, block: Block, round: nat)
    ensures Steps(v, block, 0, 0) == v
    ensures Steps(v, block, round + 1, 0) == Steps(v, block, round, 16)
  {
  }

  /** The four rounds of MD5_body on one block, and the final sums. */
  method Transform(v: Quad, block: Block) returns (r: Quad)
    ensures r == Compress(v, block)
  {
    hide Steps;
    RoundsFollow(v, block, 0);
    RoundsFollow(v, block, 1);
    RoundsFollow(v, block, 2);
    r := Round1(v, block, v);
    r := Round2(r, block, v);
    r := Round3(r, block, v);
    r := Round4(r, block, v);
    r := AddQuads(r, v);
  }

  // ----- counting -----

  const TWO_29 := 0x2000_0000
  const TWO_61 := 0x2000_0000_0000_0000

  /** The two counters of a context after `n` bytes: 29 low bits and 32 high bits. */
  ghost predicate Counts(lo: nat, hi: Word, n: nat) {
    lo < TWO_29 && hi * TWO_29 + lo == n % TWO_61
  }

  lemma CountsTellTail(lo: nat, hi: Word, n: nat)
    requires Counts(lo, hi, n)
    ensures lo % 64 == n % 64
  {
    assert n == n / TWO_61 * TWO_61 + (hi * TWO_29 + lo);
    assert n % 64 == lo % 64 by { Mod64(lo, n / TWO_61 * 0x80_0000_0000_0000 + hi * 0x80_0000); }
  }

  /** The sum modulo 2^29, and the carry: the masked sum is below the old value. */
  lemma MaskedSum(lo: nat, size: nat)
    requires lo < TWO_29
    ensures var sum, r := (lo + size) % TWO_29, size % TWO_29;
            && sum == (if lo + r < TWO_29 then lo + r else lo + r - TWO_29)
            && (sum < lo <==> lo + r >= TWO_29)
  {
    var q, r := size / TWO_29, size % TWO_29;
    assert lo + size == q * TWO_29 + (lo + r);
  }

  /** The update of the counters in MD5_hash, its carry test included, is addition modulo 2^61. */
  lemma CountersAdd(lo: nat, hi: Word, n: nat, size: nat)
    requires Counts(lo, hi, n)
    ensures var sum := (lo + size) % TWO_29;
            var carried := if sum < lo then Plus(hi, 1) else hi;
            Counts(sum, Plus(carried, size / TWO_29 % TWO_32), n + size)
  {
    MaskedSum(lo, size);
    var sum, q := (lo + size) % TWO_29, size / TWO_29;
    var carry := if sum < lo then 1 else 0;
    var high := Plus(Plus(hi, carry), q % TWO_32);
    var wraps := (hi + carry + q % TWO_32 - high) / TWO_32;
    assert hi + carry + q == high + (wraps + q / TWO_32) * TWO_32;
    var turns := n / TWO_61 + wraps + q / TWO_32;
    assert n + size == turns * TWO_61 + (high * TWO_29 + sum);
    ModUnique(n + size, turns, high * TWO_29 + sum);
  }

  lemma ModUnique(n: nat, turns: int, r: nat)
    requires n == turns * TWO_61 + r && r < TWO_61
    ensures n % TWO_61 == r
  {
  }

  /** The eight bytes of length that MD5_end writes are the low 64 bits of the number of bits. */
  lemma LengthBytes(lo: nat, hi: Word, n: nat)
    requires Counts(lo, hi, n)
    ensures 8 * lo < TWO_32
    ensures LittleEndian(8 * lo, 4) + LittleEndian(hi, 4) == LittleEndian(BitCount(n), 8)
  {
    hide LittleEndian;
    assert n == n / TWO_61 * TWO_61 + (hi * TWO_29 + lo);
    assert 8 * n == n / TWO_61 * TWO_64 + (hi * TWO_32 + 8 * lo);
    assert BitCount(n) == hi * TWO_32 + 8 * lo;
    LittleEndianPair(hi, 8 * lo);
  }

  lemma LittleEndianStep(n: nat, first: Byte, rest: nat, k: nat)
    requires n == 0x100 * rest + first
    ensures LittleEndian(n, k + 1) == [first] + LittleEndian(rest, k)
  {
  }

  lemma LittleEndianNone(n: nat)
    ensures LittleEndian(n, 0) == []
  {
  }

  lemma LittleEndianPair(hi: Word, lo: Word)
    ensures LittleEndian(hi * TWO_32 + lo, 8) == LittleEndian(lo, 4) + LittleEndian(hi, 4)
  {
    hide LittleEndian;
    var l1, l2, l3 := lo / 0x100, lo / 0x1_0000, lo / 0x100_0000;
    LittleEndianStep(hi * TWO_32 + lo, lo % 0x100, hi * 0x100_0000 + l1, 7);
    LittleEndianStep(hi * 0x100_0000 + l1, l1 % 0x100, hi * 0x1_0000 + l2, 6);
    LittleEndianStep(hi * 0x1_0000 + l2, l2 % 0x100, hi * 0x100 + l3, 5);
    LittleEndianStep(hi * 0x100 + l3, l3, hi, 4);
    LittleEndianStep(lo, lo % 0x100, l1, 3);
    LittleEndianStep(l1, l1 % 0x100, l2, 2);
    LittleEndianStep(l2, l2 % 0x100, l3, 1);
    LittleEndianStep(l3, l3, 0, 0);
    LittleEndianNone(0);
  }

  /** The bytes of a word as the program stores them, each shifted down. */
  function WordBytes(x: Word): seq<Byte> {
    [x % 0x100, x / 0x100 % 0x100, x / 0x1_0000 % 0x100, x / 0x100_0000 % 0x100]
  }

  lemma ByteAbove(x: nat, above: nat)
    requires above == x / 0x100
    ensures x == 0x100 * above + x % 0x100
  {
  }

  lemma WordBytesAreLittleEndian(x: Word)
    ensures WordBytes(x) == LittleEndian(x, 4)
  {
    hide LittleEndian;
    var x1, x2, x3 := x / 0x100, x / 0x1_0000, x / 0x100_0000;
    assert x1 / 0x100 == x2 && x2 / 0x100 == x3 && x3 < 0x100;
    ByteAbove(x, x1);
    ByteAbove(x1, x2);
    ByteAbove(x2, x3);
    LittleEndianStep(x, x % 0x100, x1, 3);
    LittleEndianStep(x1, x1 % 0x100, x2, 2);
    LittleEndianStep(x2, x2 % 0x100, x3, 1);
    LittleEndianStep(x3, x3, 0, 0);
    LittleEndianNone(0);
    assert x3 % 0x100 == x3;
  }

  // ----- the incremental hash -----

  class Context {
    var lo: Word
    var hi: Word
    var a: Word
    var b: Word
    var c: Word
    var d: Word
    const buffer: array<Byte>

    /** Everything hashed so far. */
    ghost var msg: seq<Byte>

    ghost function State(): Quad
      reads this
    {
      Quad(a, b, c, d)
    }

    /** The state has absorbed the whole blocks of the message, and `buffer` starts with the rest of it. */
    ghost predicate Valid()
      reads this, buffer
    {
      && buffer.Length == 64 && Counts(lo, hi, |msg|)
      && State() == Fold(Compress, INITIAL, Whole(msg))
      && buffer[..|msg| % 64] == Tail(msg)
    }

    /** MD5_begin */
    constructor ()
      ensures Valid() && fresh(buffer) && msg == []
    {
      a, b, c, d := 0x67452301, 0xefcdab89, 0x98badcfe, 0x10325476;
      lo, hi := 0, 0;
      buffer := new Byte[64];
      msg := [];
    }

    /** memcpy(&buffer[at], src, |src|) */
    method CopyIn(at: nat, src: seq<Byte>)
      requires buffer.Length == 64 && at + |src| <= 64
      modifies buffer
      ensures buffer[..] == old(buffer[..at]) + src + old(buffer[at + |src|..])
    {
      for i := 0 to |src|
        invariant forall k :: 0 <= k < 64 ==> buffer[k] == if at <= k < at + i then src[k - at] else old(buffer[k])
      {
        buffer[at + i] := src[i];
      }
    }

    /** MD5_body: mixes in one or more blocks, with which `before` becomes `after`. */
    method Body(data: seq<Byte>, ghost before: seq<Byte>, ghost after: seq<Byte>)
      requires |data| % 64 == 0 && data != [] && |before| % 64 == 0 && |after| % 64 == 0 && after == before + data
      requires State() == Fold(Compress, INITIAL, before)
      modifies `a, `b, `c, `d
      ensures State() == Fold(Compress, INITIAL, after)
    {
      hide Compress, Fold;
      var ptr := 0;
      ghost var done := before;
      var q := Quad(a, b, c, d);
      while true
        invariant 0 <= ptr < |data| && ptr % 64 == 0 && |done| % 64 == 0
        invariant done == before + data[..ptr] && q == Fold(Compress, INITIAL, done)
        decreases |data| - ptr
      {
        var block := data[ptr..ptr + 64];
        FoldBlock(Compress, INITIAL, done, block);
        q := Transform(q, block);
        done := done + block;
        assert done == before + data[..ptr + 64];
        ptr := ptr + 64;
        if ptr == |data| { break; }
      }
      assert data[..|data|] == data;
      a, b, c, d := q.a, q.b, q.c, q.d;
    }

    /** MD5_hash, for data of a size that size_t holds. */
    method Update(data: seq<Byte>)
      requires Valid() && |data| < TWO_64
      modifies this, buffer
      ensures Valid() && msg == old(msg) + data
    {
      hide Compress, Fold, Counts;
      CountsTellTail(lo, hi, |msg|);
      CountersAdd(lo, hi, |msg|, |data|);
      var saved := lo;
      lo := (saved + |data|) % TWO_29;
      if lo < saved { hi := Plus(hi, 1); }
      hi := Plus(hi, |data| / TWO_29 % TWO_32);
      Absorb(saved % 64, data);
    }

    /** The part of MD5_hash behind the counters; `used` bytes are in the buffer. */
    method Absorb(used: nat, data: seq<Byte>)
      requires buffer.Length == 64 && used == |msg| % 64
      requires State() == Fold(Compress, INITIAL, Whole(msg)) && buffer[..used] == Tail(msg)
      modifies `a, `b, `c, `d, `msg, buffer
      ensures msg == old(msg) + data
      ensures State() == Fold(Compress, INITIAL, Whole(msg)) && buffer[..|msg| % 64] == Tail(msg)
    {
      hide Compress, Fold;
      var rest := data;
      if used != 0 {
        var available := 64 - used;
        if |data| < available {
          Buffered(msg, data);
          CopyIn(used, data);
          msg := msg + data;
          return;
        }
        Refilled(msg, data);
        CopyIn(used, data[..available]);
        assert buffer[..] == Tail(msg) + data[..available];
        rest := data[available..];
        Body(buffer[..], Whole(msg), Whole(msg + data[..available]));
        msg := msg + data[..available];
      }
      AbsorbAligned(rest);
      assert msg == old(msg) + data;
    }

    /** The same when the buffer is empty. */
    method AbsorbAligned(data: seq<Byte>)
      requires buffer.Length == 64 && |msg| % 64 == 0
      requires State() == Fold(Compress, INITIAL, Whole(msg))
      modifies `a, `b, `c, `d, `msg, buffer
      ensures msg == old(msg) + data
      ensures State() == Fold(Compress, INITIAL, Whole(msg)) && buffer[..|msg| % 64] == Tail(msg)
    {
      hide Compress, Fold, Whole, Tail;
      ghost var all := msg + data;
      var n := |data| - |data| % 64;
      WholeAndTail(data);
      if |data| >= 64 {
        WholeBlocks(msg, data[..n]);
        Body(data[..n], Whole(msg), Whole(msg + data[..n]));
        msg := msg + data[..n];
      }
      EmptyTail(msg);
      Buffered(msg, data[n..]);
      CopyIn(0, data[n..]);
      msg := msg + data[n..];
      assert msg == all;
    }

    /** MD5_end: the digest of everything hashed, leaving a cleared context. */
    method Final() returns (digest: seq<Byte>)
      requires Valid()
      modifies this, buffer
      ensures digest == Hash(old(msg))
      ensures lo == 0 && hi == 0 && State() == Quad(0, 0, 0, 0) && buffer[..] == Zeros(64)
    {
      hide Compress, Fold, Counts, PaddedMessage;
      Pad();
      WordBytesAreLittleEndian(a);
      WordBytesAreLittleEndian(b);
      WordBytesAreLittleEndian(c);
      WordBytesAreLittleEndian(d);
      digest := WordBytes(a) + WordBytes(b) + WordBytes(c) + WordBytes(d);
      lo, hi, a, b, c, d := 0, 0, 0, 0, 0, 0;
      forall i | 0 <= i < 64 { buffer[i] := 0; }
    }

    /** The padding that MD5_end puts behind the message. */
    method Pad()
      requires Valid()
      modifies `a, `b, `c, `d, buffer
      ensures State() == Fold(Compress, INITIAL, PaddedMessage(msg))
    {
      hide Compress, Fold, Counts, BitCount, Whole, Tail, Zeros, Padded;
      CountsTellTail(lo, hi, |msg|);
      var used := lo % 64;
      ghost var length := LittleEndian(BitCount(|msg|), 8);
      CopyIn(used, [0x80]);
      used := used + 1;
      if 64 - used < 8 {
        CopyIn(used, Zeros(64 - used));
        PaddedLong(msg, length);
        ghost var block := Tail(msg) + [0x80] + Zeros(64 - used);
        assert buffer[..] == block;
        Body(buffer[..], Whole(msg), Whole(msg) + block);
        CopyIn(0, Zeros(56));
        assert buffer[..56] == Zeros(56);
        LastBlock(Whole(msg) + block, Zeros(56));
      } else {
        CopyIn(used, Zeros(56 - used));
        PaddedShort(msg, length);
        assert buffer[..56] == Tail(msg) + [0x80] + Zeros(56 - used);
        LastBlock(Whole(msg), Tail(msg) + [0x80] + Zeros(56 - used));
      }
    }

    /** Adds the length behind the first 56 bytes of the buffer and mixes in the last block. */
    method LastBlock(ghost before: seq<Byte>, ghost front: seq<Byte>)
      requires buffer.Length == 64 && Counts(lo, hi, |msg|)
      requires |before| % 64 == 0 && |front| == 56 && buffer[..56] == front
      requires State() == Fold(Compress, INITIAL, before)
      modifies `a, `b, `c, `d, buffer
      ensures |before + (front + LittleEndian(BitCount(|msg|), 8))| % 64 == 0
      ensures State() == Fold(Compress, INITIAL, before + (front + LittleEndian(BitCount(|msg|), 8)))
    {
      hide Compress, Fold, Counts, BitCount;
      LengthBytes(lo, hi, |msg|);
      WordBytesAreLittleEndian(8 * lo);
      WordBytesAreLittleEndian(hi);
      CopyIn(56, WordBytes(8 * lo) + WordBytes(hi));
      assert buffer[..] == front + LittleEndian(BitCount(|msg|), 8);
      Body(buffer[..], before, before + buffer[..]);
    }
  }

  lemma WholeAndTail(data: seq<Byte>)
    ensures var n := |data| - |data| % 64; |data[..n]| % 64 == 0 && |data[n..]| < 64 && data[..n] + data[n..] == data
    ensures |data| >= 64 ==> data[..|data| - |data| % 64] != []
    ensures |data| < 64 ==> |data| % 64 == |data|
  {
    assert data[..|data| - |data| % 64] == Whole(data);
  }

  lemma EmptyTail(msg: seq<Byte>)
    requires |msg| % 64 == 0
    ensures Tail(msg) == []
  {
  }

  lemma WholeBlocks(msg: seq<Byte>, data: seq<Byte>)
    requires |msg| % 64 == 0 && |data| % 64 == 0
    ensures Whole(msg + data) == Whole(msg) + data && |msg + data| % 64 == 0
  {
    assert msg[..|msg|] == msg;
  }

  method Feed(ctx: Context, chunks: seq<seq<Byte>>)
    requires ctx.Valid() && ctx.msg == [] && forall i :: 0 <= i < |chunks| ==> |chunks[i]| < TWO_64
    modifies ctx, ctx.buffer
    ensures ctx.Valid() && ctx.msg == Concat(chunks)
  {
    hide Compress, Fold, Counts, Whole, Tail;
    for i := 0 to |chunks|
      invariant ctx.Valid() && ctx.msg == Concat(chunks[..i])
    {
      assert chunks[..i + 1][..i] == chunks[..i];
      ctx.Update(chunks[i]);
    }
    assert chunks[..|chunks|] == chunks;
  }

  /** For every way of cutting a message into pieces, the incremental hash is the hash of the message. */
  method HashChunks(chunks: seq<seq<Byte>>) returns (digest: seq<Byte>)
    requires forall i :: 0 <= i < |chunks| ==> |chunks[i]| < TWO_64
    ensures digest == Hash(Concat(chunks))
  {
    hide Hash, Compress, Fold, Counts;
    var ctx := new Context();
    Feed(ctx, chunks);
    digest := ctx.Final();
  }
}
