/**
 * SHA-256: the block transform and the incremental hash of scripts/mkhash.c
 * against sections 4, 5 and 6.2.2 of FIPS 180-4.
 */
module Sha256 {
  import opened Basics
  import opened BlockHash
  import opened Words

  const K: seq<Word> := [
    0x428a2f98, 0x71374491, 0xb5c0fbcf, 0xe9b5dba5, 0x3956c25b, 0x59f111f1, 0x923f82a4, 0xab1c5ed5,
    0xd807aa98, 0x12835b01, 0x243185be, 0x550c7dc3, 0x72be5d74, 0x80deb1fe, 0x9bdc06a7, 0xc19bf174
  ] + [
    0xe49b69c1, 0xefbe4786, 0x0fc19dc6, 0x240ca1cc, 0x2de92c6f, 0x4a7484aa, 0x5cb0a9dc, 0x76f988da,
    0x983e5152, 0xa831c66d, 0xb00327c8, 0xbf597fc7, 0xc6e00bf3, 0xd5a79147, 0x06ca6351, 0x14292967
  ] + [
    0x27b70a85, 0x2e1b2138, 0x4d2c6dfc, 0x53380d13, 0x650a7354, 0x766a0abb, 0x81c2c92e, 0x92722c85,
    0xa2bfe8a1, 0xa81a664b, 0xc24b8b70, 0xc76c51a3, 0xd192e819, 0xd6990624, 0xf40e3585, 0x106aa070
  ] + [
    0x19a4c116, 0x1e376c08, 0x2748774c, 0x34b0bcb5, 0x391c0cb3, 0x4ed8aa4a, 0x5b9cca4f, 0x682e6ff3,
    0x748f82ee, 0x78a5636f, 0x84c87814, 0x8cc70208, 0x90befffa, 0xa4506ceb, 0xbef9a3f7, 0xc67178f2
  ]

  // ----- FIPS 180-4 -----

  function Rotr(x: Word, n: nat): Word
    requires n < 32
  {
    Or(Shr(x, n), Shl(x, 32 - n))
  }

  function Ch(x: Word, y: Word, z: Word): Word { Xor(And(x, y), ButNot(x, z)) }

  function Maj(x: Word, y: Word, z: Word): Word { Xor(Xor(And(x, y), And(x, z)), And(y, z)) }

  function BigSigma0(x: Word): Word { Xor(Xor(Rotr(x, 2), Rotr(x, 13)), Rotr(x, 22)) }

  function BigSigma1(x: Word): Word { Xor(Xor(Rotr(x, 6), Rotr(x, 11)), Rotr(x, 25)) }

  function Sigma0(x: Word): Word { Xor(Xor(Rotr(x, 7), Rotr(x, 18)), Shr(x, 3)) }

  function Sigma1(x: Word): Word { Xor(Xor(Rotr(x, 17), Rotr(x, 19)), Shr(x, 10)) }

  /** The working variables a to h, and also the eight words of a hash value. */
  datatype Vars = Vars(a: Word, b: Word, c: Word, d: Word, e: Word, f: Word, g: Word, h: Word)

  const INITIAL := Vars(0x6A09E667, 0xBB67AE85, 0x3C6EF372, 0xA54FF53A, 0x510E527F, 0x9B05688C, 0x1F83D9AB, 0x5BE0CD19)

  /** The word whose four bytes start at `i`, the most significant first. */
  function WordOf(data: seq<Byte>, i: nat): Word
    requires i + 4 <= |data|
  {
    var b0: int, b1: int, b2: int, b3: int := data[i], data[i + 1], data[i + 2], data[i + 3];
    b0 * 0x100_0000 + b1 * 0x1_0000 + b2 * 0x100 + b3
  }

  /** The message schedule. */
  function Schedule(block: Block, t: nat): Word {
    if t < 16 then WordOf(block, 4 * t)
    else Expand(Schedule(block, t - 2), Schedule(block, t - 7), Schedule(block, t - 15), Schedule(block, t - 16))
  }

  function Expand(w2: Word, w7: Word, w15: Word, w16: Word): Word {
    Plus(Plus(Plus(Sigma1(w2), w7), Sigma0(w15)), w16)
  }

  /** The first temporary word of a round. */
  function Temp1(v: Vars, k: Word, w: Word): Word {
    Plus(Plus(Plus(Plus(v.h, BigSigma1(v.e)), Ch(v.e, v.f, v.g)), k), w)
  }

  function Temp2(v: Vars): Word { Plus(BigSigma0(v.a), Maj(v.a, v.b, v.c)) }

  /** One round with the constant and the schedule word of the round. */
  function Round(v: Vars, k: Word, w: Word): Vars {
    Vars(Plus(Temp1(v, k, w), Temp2(v)), v.a, v.b, v.c, Plus(v.d, Temp1(v, k, w)), v.e, v.f, v.g)
  }

  /** The state after `t` rounds with the round constants `ks`. */
  function Rounds(ks: seq<Word>, v: Vars, block: Block, t: nat): Vars
    requires t <= |ks|
  {
    if t == 0 then v else Round(Rounds(ks, v, block, t - 1), ks[t - 1], Schedule(block, t - 1))
  }

  function AddVars(v: Vars, w: Vars): Vars {
    Vars(Plus(v.a, w.a), Plus(v.b, w.b), Plus(v.c, w.c), Plus(v.d, w.d),
         Plus(v.e, w.e), Plus(v.f, w.f), Plus(v.g, w.g), Plus(v.h, w.h))
  }

  /** The hash computation for one block. */
  function Compress(v: Vars, block: Block): Vars { AddVars(v, Rounds(K, v, block, |K|)) }

  function WordBytes(w: Word): (r: seq<Byte>)
    ensures |r| == 4
  {
    BigEndian(w, 4)
  }

  function WordsBytes(ws: seq<Word>): seq<Byte> {
    if ws == [] then [] else WordsBytes(ws[..|ws| - 1]) + WordBytes(ws[|ws| - 1])
  }

  function Digest(v: Vars): seq<Byte> {
    WordsBytes([v.a, v.b, v.c, v.d, v.e, v.f, v.g, v.h])
  }

  /** The padded message; the length in bits is taken modulo 2^64, and the standard ends there. */
  function PaddedMessage(msg: seq<Byte>): (r: seq<Byte>)
    ensures |r| % 64 == 0
  {
    Padded(msg, BigEndian(BitCount(|msg|), 8))
  }

  function Hash(msg: seq<Byte>): seq<Byte> {
    Digest(Fold(Compress, INITIAL, PaddedMessage(msg)))
  }

  // ----- the macros of the program -----

  function ChFast(x: Word, y: Word, z: Word): Word { Xor(And(x, Xor(y, z)), z) }

  function MajFast(x: Word, y: Word, z: Word): Word { Or(And(x, Or(y, z)), And(y, z)) }

  lemma FastForms(x: Word, y: Word, z: Word)
    ensures ChFast(x, y, z) == Ch(x, y, z)
    ensures MajFast(x, y, z) == Maj(x, y, z)
  {
    Choose(x, y, z);
    Majority(x, y, z);
  }

  /** The order in which the program adds up a round is that of the standard. */
  lemma SumOrder(h: Word, s: Word, c: Word, w: Word, k: Word)
    ensures Plus(h, Plus(Plus(s, c), Plus(w, k))) == Plus(Plus(Plus(Plus(h, s), c), k), w)
  {
    PlusCommutative(w, k);
    PlusAssociative(Plus(Plus(h, s), c), k, w);
    PlusAssociative(h, Plus(s, c), Plus(k, w));
    PlusAssociative(h, s, c);
  }

  /** `j + k` around a circle of eight. */
  function Ring(j: nat, k: nat): (r: nat)
    requires j < 8 && k < 8
    ensures r < 8
  {
    if j + k < 8 then j + k else j + k - 8
  }

  /** The working variables, `a` being the state word `j`. */
  function At(s: seq<Word>, j: nat): Vars
    requires |s| == 8 && j < 8
  {
    Vars(s[j], s[Ring(j, 1)], s[Ring(j, 2)], s[Ring(j, 3)], s[Ring(j, 4)], s[Ring(j, 5)], s[Ring(j, 6)], s[Ring(j, 7)])
  }

  /** Overwriting `d` and `h` in place and renaming is shifting the working variables. */
  lemma AtShifted(s: seq<Word>, j: nat, d: Word, h: Word)
    requires |s| == 8 && j < 8
    ensures var v := At(s, j);
            At(s[Ring(j, 3) := d][Ring(j, 7) := h], Ring(j, 7)) == Vars(h, v.a, v.b, v.c, d, v.e, v.f, v.g)
  {
  }

  /** Where `a` is after `i` rounds of a group of sixteen: (64 - i) % 8. */
  function Slot(i: nat): (j: nat)
    requires i <= 16
    ensures j < 8 && j == (64 - i) % 8
  {
    if i == 0 then 0 else if i <= 8 then 8 - i else 16 - i
  }

  lemma IndexRotation(i: nat)
    requires i < 16
    ensures var j := Slot(i);
            && (64 - i) % 8 == j
            && (65 - i) % 8 == Ring(j, 1) && (66 - i) % 8 == Ring(j, 2) && (67 - i) % 8 == Ring(j, 3)
            && (68 - i) % 8 == Ring(j, 4) && (69 - i) % 8 == Ring(j, 5) && (70 - i) % 8 == Ring(j, 6)
            && (71 - i) % 8 == Ring(j, 7) == Slot(i + 1)
  {
    RingOfSum(64 - i, 1);
    RingOfSum(64 - i, 2);
    RingOfSum(64 - i, 3);
    RingOfSum(64 - i, 4);
    RingOfSum(64 - i, 5);
    RingOfSum(64 - i, 6);
    RingOfSum(64 - i, 7);
  }

  lemma RingOfSum(n: nat, k: nat)
    requires k < 8
    ensures (n + k) % 8 == Ring(n % 8, k)
  {
    assert n == n / 8 * 8 + n % 8;
  }

  lemma RoundSum(v: Vars, k: Word, w: Word)
    ensures Plus(v.h, Plus(Plus(BigSigma1(v.e), ChFast(v.e, v.f, v.g)), Plus(w, k))) == Temp1(v, k, w)
    ensures Plus(BigSigma0(v.a), MajFast(v.a, v.b, v.c)) == Temp2(v)
  {
    FastForms(v.e, v.f, v.g);
    FastForms(v.a, v.b, v.c);
    SumOrder(v.h, BigSigma1(v.e), Ch(v.e, v.f, v.g), w, k);
  }

  /** RND: the three in-place sums. */
  method RoundInPlace(s: array<Word>, a: nat, b: nat, c: nat, d: nat, e: nat, f: nat, g: nat, h: nat, sum: Word)
    requires s.Length == 8 && a < 8 && b < 8 && c < 8 && d < 8 && e < 8 && f < 8 && g < 8 && h < 8
    requires d != h && a != h && b != h && c != h && a != d && b != d && c != d
    modifies s
    ensures var s0 := old(s[..]);
            var t := Plus(s0[h], Plus(Plus(BigSigma1(s0[e]), ChFast(s0[e], s0[f], s0[g])), sum));
            s[..] == s0[d := Plus(s0[d], t)][h := Plus(t, Plus(BigSigma0(s0[a]), MajFast(s0[a], s0[b], s0[c])))]
  {
    s[h] := Plus(s[h], Plus(Plus(BigSigma1(s[e]), ChFast(s[e], s[f], s[g])), sum));
    s[d] := Plus(s[d], s[h]);
    s[h] := Plus(s[h], Plus(BigSigma0(s[a]), MajFast(s[a], s[b], s[c])));
  }

  /** RNDr: the state words stay in place and their names rotate. */
  method RotatingRound(s: array<Word>, i: nat, w: Word, k: Word)
    requires s.Length == 8 && i < 16
    modifies s
    ensures At(s[..], Slot(i + 1)) == Round(At(old(s[..]), Slot(i)), k, w)
  {
    ghost var s0, j := s[..], Slot(i);
    IndexRotation(i);
    RoundInPlace(s, (64 - i) % 8, (65 - i) % 8, (66 - i) % 8, (67 - i) % 8,
                 (68 - i) % 8, (69 - i) % 8, (70 - i) % 8, (71 - i) % 8, Plus(w, k));
    RoundSum(At(s0, j), k, w);
    AtShifted(s0, j, Plus(At(s0, j).d, Temp1(At(s0, j), k, w)), Plus(Temp1(At(s0, j), k, w), Temp2(At(s0, j))));
  }

  // ----- the transform -----

  /** be32dec_vect on one block. */
  method DecodeWords(w: array<Word>, block: Block)
    requires w.Length == 64
    modifies w
    ensures forall t :: 0 <= t < 16 ==> w[t] == Schedule(block, t)
  {
    for t := 0 to 16
      invariant forall u :: 0 <= u < t ==> w[u] == Schedule(block, u)
    {
      var b0: int, b1: int, b2: int, b3: int := block[4 * t], block[4 * t + 1], block[4 * t + 2], block[4 * t + 3];
      w[t] := (b0 * 0x100 + b1) * 0x1_0000 + (b2 * 0x100 + b3);
    }
  }

  lemma NoRounds(ks: seq<Word>, v: Vars, block: Block)
    ensures Rounds(ks, v, block, 0) == v
  {
  }

  lemma NextRound(ks: seq<Word>, v: Vars, block: Block, t: nat, u: Vars, u': Vars, k: Word, w: Word)
    requires t < |ks| && k == ks[t] && w == Schedule(block, t)
    requires u == Rounds(ks, v, block, t) && u' == Round(u, k, w)
    ensures u' == Rounds(ks, v, block, t + 1)
  {
  }

  /** Sixteen rounds from round `from` on. */
  method SixteenRounds(ks: seq<Word>, s: array<Word>, w: array<Word>, from: nat, ghost v: Vars, ghost block: Block)
    requires s.Length == 8 && w.Length == 64 && s != w && from + 16 <= 64 == |ks|
    requires forall t :: 0 <= t < from + 16 ==> w[t] == Schedule(block, t)
    requires At(s[..], 0) == Rounds(ks, v, block, from)
    modifies s
    ensures At(s[..], 0) == Rounds(ks, v, block, from + 16)
  {
    hide Rounds, Round, Schedule, At;
    for i := 0 to 16
      invariant At(s[..], Slot(i)) == Rounds(ks, v, block, from + i)
    {
      ghost var u := At(s[..], Slot(i));
      RotatingRound(s, i, w[i + from], ks[i + from]);
      NextRound(ks, v, block, from + i, u, At(s[..], Slot(i + 1)), ks[i + from], w[i + from]);
    }
  }

  /** The next sixteen schedule words. */
  method NextSixteen(w: array<Word>, from: nat, ghost block: Block)
    requires w.Length == 64 && from + 32 <= 64
    requires forall t :: 0 <= t < from + 16 ==> w[t] == Schedule(block, t)
    modifies w
    ensures forall t :: 0 <= t < from + 32 ==> w[t] == Schedule(block, t)
  {
    for i := 0 to 16
      invariant forall t :: 0 <= t < from + 16 + i ==> w[t] == Schedule(block, t)
    {
      var ii := i + from;
      w[ii + 16] := Plus(Plus(Plus(Sigma1(w[ii + 14]), w[ii + 9]), Sigma0(w[ii + 1])), w[ii]);
    }
  }

  /** The rounds and the message schedule, interleaved sixteen by sixteen. */
  method Mix(ks: seq<Word>, s: array<Word>, block: Block)
    requires s.Length == 8 && |ks| == 64
    modifies s
    ensures At(s[..], 0) == Rounds(ks, At(old(s[..]), 0), block, |ks|)
  {
    hide Rounds, Schedule, At;
    ghost var v := At(s[..], 0);
    NoRounds(ks, v, block);
    var w := new Word[64];
    DecodeWords(w, block);
    var from := 0;
    while true
      invariant from == 0 || from == 16 || from == 32 || from == 48
      invariant forall t :: 0 <= t < from + 16 ==> w[t] == Schedule(block, t)
      invariant At(s[..], 0) == Rounds(ks, v, block, from)
      decreases 64 - from
    {
      SixteenRounds(ks, s, w, from, v, block);
      if from == 48 { break; }
      NextSixteen(w, from, block);
      from := from + 16;
    }
  }

  /** SHA256_Transform computes the compression of the standard, for every state and block. */
  method Transform(state: array<Word>, block: Block)
    requires state.Length == 8
    modifies state
    ensures At(state[..], 0) == Compress(At(old(state[..]), 0), block)
  {
    hide Rounds, At, AddVars;
    var s := new Word[8](i requires 0 <= i < 8 reads state => state[i]);
    assert s[..] == state[..];
    Mix(K, s, block);
    AddIn(state, s);
  }

  method AddIn(state: array<Word>, s: array<Word>)
    requires state.Length == 8 && s.Length == 8 && s != state
    modifies state
    ensures At(state[..], 0) == AddVars(At(old(state[..]), 0), At(s[..], 0))
  {
    for i := 0 to 8
      invariant forall k :: 0 <= k < 8 ==> state[k] == if k < i then Plus(old(state[k]), s[k]) else old(state[k])
    {
      state[i] := Plus(state[i], s[i]);
    }
  }

  // ----- counting -----

  /** The low bits of a byte count survive counting bits modulo 2^64. */
  lemma BitCountTellsTail(n: nat)
    ensures BitCount(n) / 8 % 64 == n % 64
  {
    var q := 8 * n / TWO_64;
    assert BitCount(n) == 8 * (n - q * 0x2000_0000_0000_0000);
    assert BitCount(n) / 8 == n - 64 * (q * 0x80_0000_0000_0000);
    Mod64(n, -q * 0x80_0000_0000_0000);
  }

  lemma BitCountSum(n: nat, k: nat)
    ensures (BitCount(n) + BitCount(k)) % TWO_64 == BitCount(n + k)
  {
    ModSum(8 * n, 8 * k);
  }

  lemma ModSum(a: nat, b: nat)
    ensures (a % TWO_64 + b % TWO_64) % TWO_64 == (a + b) % TWO_64
  {
    var q := a / TWO_64 + b / TWO_64;
    assert a + b == q * TWO_64 + (a % TWO_64 + b % TWO_64);
  }

  /** be32enc: each byte shifted down. */
  function Encode32(x: Word): seq<Byte> {
    [x / 0x100_0000 % 0x100, x / 0x1_0000 % 0x100, x / 0x100 % 0x100, x % 0x100]
  }

  lemma Encode32IsBigEndian(x: Word)
    ensures Encode32(x) == BigEndian(x, 4)
  {
    assert x / 0x100 / 0x100 == x / 0x1_0000;
    assert x / 0x100 / 0x100 / 0x100 == x / 0x100_0000;
    assert BigEndian(x / 0x100_0000, 1) == [x / 0x100_0000 % 0x100];
    assert BigEndian(x / 0x1_0000, 2) == [x / 0x100_0000 % 0x100, x / 0x1_0000 % 0x100];
    assert BigEndian(x / 0x100, 3) == [x / 0x100_0000 % 0x100, x / 0x1_0000 % 0x100, x / 0x100 % 0x100];
  }

  /** be64enc: the high word before the low word. */
  lemma EncodeCount(c: nat)
    requires c < TWO_64
    ensures Encode32(c / TWO_32) + Encode32(c % TWO_32) == BigEndian(c, 8)
  {
    hide BigEndian, Encode32;
    assert c == c / TWO_32 * TWO_32 + c % TWO_32;
    Encode32IsBigEndian(c / TWO_32);
    Encode32IsBigEndian(c % TWO_32);
    BigEndianPair(c / TWO_32, c % TWO_32);
  }

  lemma BigEndianPair(hi: Word, lo: Word)
    ensures BigEndian(hi * TWO_32 + lo, 8) == BigEndian(hi, 4) + BigEndian(lo, 4)
  {
    hide BigEndian;
    var l1, l2, l3 := lo / 0x100, lo / 0x1_0000, lo / 0x100_0000;
    BigEndianStep(hi * TWO_32 + lo, hi * 0x100_0000 + l1, lo % 0x100, 7);
    BigEndianStep(hi * 0x100_0000 + l1, hi * 0x1_0000 + l2, l1 % 0x100, 6);
    BigEndianStep(hi * 0x1_0000 + l2, hi * 0x100 + l3, l2 % 0x100, 5);
    BigEndianStep(hi * 0x100 + l3, hi, l3, 4);
    BigEndianStep(lo, l1, lo % 0x100, 3);
    BigEndianStep(l1, l2, l1 % 0x100, 2);
    BigEndianStep(l2, l3, l2 % 0x100, 1);
    BigEndianStep(l3, 0, l3, 0);
    BigEndianNone(0);
  }

  lemma BigEndianNone(n: nat)
    ensures BigEndian(n, 0) == []
  {
  }

  lemma BigEndianStep(n: nat, front: nat, last: Byte, k: nat)
    requires n == 0x100 * front + last
    ensures BigEndian(n, k + 1) == BigEndian(front, k) + [last]
  {
  }

  // ----- the incremental hash -----

  class Context {
    var state: array<Word>
    /** The number of bits hashed so far, modulo 2^64. */
    var count: nat
    var buf: array<Byte>

    /** Everything hashed so far. */
    ghost var msg: seq<Byte>

    /** `state` has absorbed the whole blocks of the message, and `buf` starts with the rest of it. */
    ghost predicate Valid()
      reads this, state, buf
    {
      && state.Length == 8 && buf.Length == 64
      && count == BitCount(|msg|)
      && At(state[..], 0) == Fold(Compress, INITIAL, Whole(msg))
      && buf[..|msg| % 64] == Tail(msg)
    }

    /** SHA256_Init */
    constructor ()
      ensures Valid() && fresh(state) && fresh(buf) && msg == []
    {
      count := 0;
      state := new Word[] [0x6A09E667, 0xBB67AE85, 0x3C6EF372, 0xA54FF53A, 0x510E527F, 0x9B05688C, 0x1F83D9AB,
        0x5BE0CD19];
      buf := new Byte[64];
      msg := [];
    }

    /** The number of bytes in the buffer, read off the bit count. */
    lemma CountTellsTail()
      requires Valid()
      ensures count / 8 % 64 == |msg| % 64
    {
      BitCountTellsTail(|msg|);
    }

    /** memcpy(&buf[at], src, |src|) */
    method CopyIn(at: nat, src: seq<Byte>)
      requires buf.Length == 64 && at + |src| <= 64
      modifies buf
      ensures buf[..] == old(buf[..at]) + src + old(buf[at + |src|..])
    {
      for i := 0 to |src|
        invariant forall k :: 0 <= k < 64 ==> buf[k] == if at <= k < at + i then src[k - at] else old(buf[k])
      {
        buf[at + i] := src[i];
      }
    }

    /** Runs the transform on the block with which `before` becomes `after`. */
    method Absorb(block: Block, ghost before: seq<Byte>, ghost after: seq<Byte>)
      requires state.Length == 8 && |before| % 64 == 0 && |after| % 64 == 0 && after == before + block
      requires At(state[..], 0) == Fold(Compress, INITIAL, before)
      modifies state
      ensures At(state[..], 0) == Fold(Compress, INITIAL, after)
    {
      hide Compress, Fold, BitCount;
      FoldBlock(Compress, INITIAL, before, block);
      Transform(state, block);
    }

    /** SHA256_Update: hashes `src` behind everything hashed before. */
    method Update(src: seq<Byte>)
      requires Valid()
      modifies this, state, buf
      ensures Valid() && state == old(state) && buf == old(buf)
      ensures msg == old(msg) + src
    {
      hide Compress, Fold, BitCount;
      CountTellsTail();
      var r := count / 8 % 64;
      BitCountSum(|msg|, |src|);
      count := (count + BitCount(|src|)) % TWO_64;
      if |src| < 64 - r {
        Buffered(msg, src);
        CopyIn(r, src);
        msg := msg + src;
        return;
      }
      Flush(r, src);
    }

    /** The part of the update that mixes in at least one block. */
    method Flush(r: nat, src: seq<Byte>)
      requires state.Length == 8 && buf.Length == 64 && r == |msg| % 64 && r + |src| >= 64
      requires At(state[..], 0) == Fold(Compress, INITIAL, Whole(msg)) && buf[..r] == Tail(msg)
      modifies `msg, state, buf
      ensures msg == old(msg) + src
      ensures At(state[..], 0) == Fold(Compress, INITIAL, Whole(msg)) && buf[..|msg| % 64] == Tail(msg)
    {
      hide Compress, Fold, BitCount, At;
      ghost var all := msg + src;
      FillBlock(r, src);
      msg := msg + src[..64 - r];
      var rest := WholeBlocks(src[64 - r..]);
      Buffered(msg, rest);
      CopyIn(0, rest);
      msg := msg + rest;
      assert msg == all;
    }

    /** Completes the block in the buffer and mixes it in. */
    method FillBlock(r: nat, src: seq<Byte>)
      requires state.Length == 8 && buf.Length == 64 && r == |msg| % 64 && r + |src| >= 64
      requires At(state[..], 0) == Fold(Compress, INITIAL, Whole(msg)) && buf[..r] == Tail(msg)
      modifies state, buf
      ensures |msg + src[..64 - r]| % 64 == 0
      ensures At(state[..], 0) == Fold(Compress, INITIAL, Whole(msg + src[..64 - r]))
    {
      hide Compress, Fold, BitCount;
      Refilled(msg, src);
      CopyIn(r, src[..64 - r]);
      assert buf[..] == Tail(msg) + src[..64 - r];
      Absorb(buf[..], Whole(msg), Whole(msg + src[..64 - r]));
    }

    /** Mixes in whole blocks straight from the source. */
    method WholeBlocks(src: seq<Byte>) returns (rest: seq<Byte>)
      requires state.Length == 8 && |msg| % 64 == 0
      requires At(state[..], 0) == Fold(Compress, INITIAL, Whole(msg))
      modifies `msg, state
      ensures |msg| % 64 == 0 && |rest| < 64 && msg + rest == old(msg) + src
      ensures At(state[..], 0) == Fold(Compress, INITIAL, Whole(msg))
    {
      hide Compress, Fold, BitCount;
      rest := src;
      while |rest| >= 64
        invariant |msg| % 64 == 0 && msg + rest == old(msg) + src
        invariant At(state[..], 0) == Fold(Compress, INITIAL, Whole(msg))
        decreases |rest|
      {
        WholeStep(msg, rest);
        Absorb(rest[..64], Whole(msg), Whole(msg + rest[..64]));
        msg := msg + rest[..64];
        rest := rest[64..];
      }
    }

    /** SHA256_Pad: ends the message with its padding. */
    method Pad()
      requires Valid()
      modifies state, buf
      ensures At(state[..], 0) == Fold(Compress, INITIAL, PaddedMessage(msg))
    {
      hide Compress, Fold, BitCount, Whole, Tail, Zeros, Padded;
      CountTellsTail();
      var r := count / 8 % 64;
      ghost var length := BigEndian(BitCount(|msg|), 8);
      if r < 56 {
        CopyIn(r, [0x80] + Zeros(55 - r));
        PaddedShort(msg, length);
        assert buf[..56] == Tail(msg) + [0x80] + Zeros(55 - r);
        LastBlock(Whole(msg), Tail(msg) + [0x80] + Zeros(55 - r));
      } else {
        CopyIn(r, [0x80] + Zeros(63 - r));
        PaddedLong(msg, length);
        ghost var block := Tail(msg) + [0x80] + Zeros(63 - r);
        assert buf[..] == block;
        Absorb(buf[..], Whole(msg), Whole(msg) + block);
        CopyIn(0, Zeros(56));
        assert buf[..56] == Zeros(56);
        LastBlock(Whole(msg) + block, Zeros(56));
      }
    }

    /** Adds the bit count behind the first 56 bytes of the buffer and mixes in the last block. */
    method LastBlock(ghost before: seq<Byte>, ghost front: seq<Byte>)
      requires state.Length == 8 && buf.Length == 64 && count < TWO_64
      requires |before| % 64 == 0 && |front| == 56 && buf[..56] == front
      requires At(state[..], 0) == Fold(Compress, INITIAL, before)
      modifies state, buf
      ensures |before + (front + BigEndian(count, 8))| % 64 == 0
      ensures At(state[..], 0) == Fold(Compress, INITIAL, before + (front + BigEndian(count, 8)))
    {
      hide Compress, Fold, BitCount;
      EncodeCount(count);
      CopyIn(56, Encode32(count / TWO_32) + Encode32(count % TWO_32));
      assert buf[..] == front + BigEndian(count, 8);
      Absorb(buf[..], before, before + buf[..]);
    }

    /** SHA256_Final: the digest of everything hashed, leaving a cleared context. */
    method Final() returns (digest: seq<Byte>)
      requires Valid()
      modifies this, state, buf
      ensures digest == Hash(old(msg))
      ensures count == 0 && state[..] == seq(8, _ => 0) && buf[..] == Zeros(64)
    {
      hide Compress, Fold, WordBytes;
      Pad();
      digest := [];
      for i := 0 to 8
        invariant digest == WordsBytes(state[..i])
      {
        assert state[..i + 1][..i] == state[..i];
        digest := digest + WordBytes(state[i]);
      }
      ghost var v := At(state[..], 0);
      assert state[..8] == [v.a, v.b, v.c, v.d, v.e, v.f, v.g, v.h];
      count := 0;
      forall i | 0 <= i < 8 { state[i] := 0; }
      forall i | 0 <= i < 64 { buf[i] := 0; }
    }
  }

  method Feed(ctx: Context, chunks: seq<seq<Byte>>)
    requires ctx.Valid() && ctx.msg == []
    modifies ctx, ctx.state, ctx.buf
    ensures ctx.Valid() && ctx.msg == Concat(chunks) && ctx.state == old(ctx.state) && ctx.buf == old(ctx.buf)
  {
    hide Compress, Fold, At, BitCount, Whole, Tail;
    for i := 0 to |chunks|
      invariant ctx.Valid() && ctx.state == old(ctx.state) && ctx.buf == old(ctx.buf)
      invariant ctx.msg == Concat(chunks[..i])
    {
      assert chunks[..i + 1][..i] == chunks[..i];
      ctx.Update(chunks[i]);
    }
    assert chunks[..|chunks|] == chunks;
  }

  /** For every way of cutting a message into pieces, the incremental hash is the hash of the message. */
  method HashChunks(chunks: seq<seq<Byte>>) returns (digest: seq<Byte>)
    ensures digest == Hash(Concat(chunks))
  {
    hide Hash, Compress, Fold, At, BitCount;
    var ctx := new Context();
    Feed(ctx, chunks);
    digest := ctx.Final();
  }
}
