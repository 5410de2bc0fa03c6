/**
 * Folding a block function over a message, and the padding that MD5 and SHA-256
 * share (scripts/mkhash.c).
 */
module BlockHash {
  import opened Basics

  type Byte = x: int | 0 <= x < 256

  type Block = b: seq<Byte> | |b| == 64 witness seq(64, _ => 0)

  /** One block after the other. */
  function Fold<S>(f: (S, Block) -> S, h: S, data: seq<Byte>): S
    requires |data| % 64 == 0
  {
    if data == [] then h else Fold(f, f(h, data[..64]), data[64..])
  }

  lemma {:induction false} FoldAppend<S>(f: (S, Block) -> S, h: S, a: seq<Byte>, b: seq<Byte>)
    requires |a| % 64 == 0 && |b| % 64 == 0
    ensures Fold(f, h, a + b) == Fold(f, Fold(f, h, a), b)
    decreases |a|
  {
    if a == [] {
      assert a + b == b;
    } else {
      assert (a + b)[..64] == a[..64] && (a + b)[64..] == a[64..] + b;
      FoldAppend(f, f(h, a[..64]), a[64..], b);
    }
  }

  lemma FoldBlock<S>(f: (S, Block) -> S, h: S, a: seq<Byte>, block: Block)
    requires |a| % 64 == 0
    ensures Fold(f, h, a + block) == f(Fold(f, h, a), block)
  {
    FoldAppend(f, h, a, block);
    assert block[..64] == block && block[64..] == [];
    assert Fold(f, Fold(f, h, a), block) == Fold(f, f(Fold(f, h, a), block[..64]), block[64..]);
  }

  /** The part of a message that fills whole blocks, and what is left. */
  function Whole(msg: seq<Byte>): (r: seq<Byte>)
    ensures |r| % 64 == 0 && |r| <= |msg|
  {
    msg[..|msg| - |msg| % 64]
  }

  function Tail(msg: seq<Byte>): (r: seq<Byte>)
    ensures |r| == |msg| % 64 && Whole(msg) + r == msg
  {
    msg[|msg| - |msg| % 64..]
  }

  function Zeros(n: nat): (r: seq<Byte>)
    ensures |r| == n && forall i :: 0 <= i < n ==> r[i] == 0
  {
    seq(n, _ => 0)
  }

  /** A message, the bit 1, the least number of zero bits, and eight bytes of length: whole blocks. */
  function Padded(msg: seq<Byte>, length: seq<Byte>): (r: seq<Byte>)
    requires |length| == 8
    ensures |r| % 64 == 0
  {
    msg + [0x80] + Zeros((55 - |msg|) % 64) + length
  }

  /** The number of bits in `n` bytes, modulo 2^64. */
  function BitCount(n: nat): (c: nat)
    ensures c < TWO_64
  {
    8 * n % TWO_64
  }

  /** A multiple of 64 does not change the position in a block. */
  lemma Mod64(n: int, k: int)
    ensures (n + 64 * k) % 64 == n % 64
  {
  }

  function Concat(chunks: seq<seq<Byte>>): seq<Byte> {
    if chunks == [] then [] else Concat(chunks[..|chunks| - 1]) + chunks[|chunks| - 1]
  }

  /** `n` as `k` bytes, the most significant first, modulo 256^k. */
  function BigEndian(n: nat, k: nat): (r: seq<Byte>)
    ensures |r| == k
  {
    if k == 0 then [] else BigEndian(n / 256, k - 1) + [n % 256]
  }

  /** The same with the least significant first. */
  function LittleEndian(n: nat, k: nat): (r: seq<Byte>)
    ensures |r| == k
  {
    if k == 0 then [] else [n % 256] + LittleEndian(n / 256, k - 1)
  }

  // ----- a block hash fed in pieces -----

  /** A buffer holds `n` bytes that continue `front` to `msg`, less than a block. */
  lemma Buffered(msg: seq<Byte>, data: seq<Byte>)
    requires |msg| % 64 + |data| < 64
    ensures Whole(msg + data) == Whole(msg) && Tail(msg + data) == Tail(msg) + data
  {
    var r := |msg| % 64;
    assert (|msg| + |data|) % 64 == r + |data| by {
      assert |msg| + |data| == |msg| / 64 * 64 + (r + |data|);
    }
  }

  /** Once a block is full, the rest of the data starts afresh. */
  lemma Refilled(msg: seq<Byte>, data: seq<Byte>)
    requires |msg| % 64 + |data| >= 64
    ensures var need := 64 - |msg| % 64;
            && Whole(msg + data[..need]) == Whole(msg) + (Tail(msg) + data[..need])
            && |msg + data[..need]| % 64 == 0
            && msg + data == (msg + data[..need]) + data[need..]
  {
    var need := 64 - |msg| % 64;
    var m := msg + data[..need];
    assert |m| % 64 == 0;
    assert m == Whole(msg) + (Tail(msg) + data[..need]);
    assert m[..|m|] == m;
  }

  lemma WholeStep(msg: seq<Byte>, data: seq<Byte>)
    requires |msg| % 64 == 0 && |data| >= 64
    ensures Whole(msg + data[..64]) == Whole(msg) + data[..64] && |msg + data[..64]| % 64 == 0
    ensures msg + data == (msg + data[..64]) + data[64..]
  {
    assert msg[..|msg|] == msg;
    assert (msg + data[..64])[..|msg| + 64] == msg + data[..64];
  }

  /** The padding when it fits behind the buffered tail, and when it needs another block. */
  lemma PaddedShort(msg: seq<Byte>, length: seq<Byte>)
    requires |length| == 8 && |msg| % 64 < 56
    ensures Padded(msg, length) == Whole(msg) + (Tail(msg) + [0x80] + Zeros(55 - |msg| % 64) + length)
  {
    assert (55 - |msg|) % 64 == 55 - |msg| % 64;
    assert msg == Whole(msg) + Tail(msg);
  }

  lemma PaddedLong(msg: seq<Byte>, length: seq<Byte>)
    requires |length| == 8 && |msg| % 64 >= 56
    ensures Padded(msg, length)
         == Whole(msg) + (Tail(msg) + [0x80] + Zeros(63 - |msg| % 64)) + (Zeros(56) + length)
  {
    var r := |msg| % 64;
    assert (55 - |msg|) % 64 == 119 - r;
    assert Zeros(119 - r) == Zeros(63 - r) + Zeros(56);
    assert msg == Whole(msg) + Tail(msg);
  }
}
