/** The streaming SHA-256 hasher, proved equal to the padded-block definition of FIPS 180-4. */
module Sha256 {

  type Byte = bv8
  type Word = bv32

  // ----- FIPS 180-4, sections 4.1.2, 5.1.1, 5.2.1 and 6.2.2 -----

  function Rotr(x: Word, n: nat): (r: Word)
    requires 0 < n < 32
  {
    x.RotateRight(n)
  }

  /** Addition modulo 2^32. */
  function Add(x: Word, y: Word): (r: Word) { x + y }

  function Ch(x: Word, y: Word, z: Word): (r: Word) { (x & y) ^ (!x & z) }
  function Maj(x: Word, y: Word, z: Word): (r: Word) { (x & y) ^ (x & z) ^ (y & z) }
  function BigSigma0(x: Word): (r: Word) { Rotr(x, 2) ^ Rotr(x, 13) ^ Rotr(x, 22) }
  function BigSigma1(x: Word): (r: Word) { Rotr(x, 6) ^ Rotr(x, 11) ^ Rotr(x, 25) }
  function SmallSigma0(x: Word): (r: Word) { Rotr(x, 7) ^ Rotr(x, 18) ^ (x >> 3) }
  function SmallSigma1(x: Word): (r: Word) { Rotr(x, 17) ^ Rotr(x, 19) ^ (x >> 10) }

  const K: seq<Word> := [
    0x428a2f98, 0x71374491, 0xb5c0fbcf, 0xe9b5dba5, 0x3956c25b, 0x59f111f1, 0x923f82a4, 0xab1c5ed5,
    0xd807aa98, 0x12835b01, 0x243185be, 0x550c7dc3, 0x72be5d74, 0x80deb1fe, 0x9bdc06a7, 0xc19bf174,
    0xe49b69c1, 0xefbe4786, 0x0fc19dc6, 0x240ca1cc, 0x2de92c6f, 0x4a7484aa, 0x5cb0a9dc, 0x76f988da,
    0x983e5152, 0xa831c66d, 0xb00327c8, 0xbf597fc7, 0xc6e00bf3, 0xd5a79147, 0x06ca6351, 0x14292967,
    0x27b70a85, 0x2e1b2138, 0x4d2c6dfc, 0x53380d13, 0x650a7354, 0x766a0abb, 0x81c2c92e, 0x92722c85,
    0xa2bfe8a1, 0xa81a664b, 0xc24b8b70, 0xc76c51a3, 0xd192e819, 0xd6990624, 0xf40e3585, 0x106aa070,
    0x19a4c116, 0x1e376c08, 0x2748774c, 0x34b0bcb5, 0x391c0cb3, 0x4ed8aa4a, 0x5b9cca4f, 0x682e6ff3,
    0x748f82ee, 0x78a5636f, 0x84c87814, 0x8cc70208, 0x90befffa, 0xa4506ceb, 0xbef9a3f7, 0xc67178f2
  ]

  const INITIAL: seq<Word> := [
    0x6a09e667, 0xbb67ae85, 0x3c6ef372, 0xa54ff53a, 0x510e527f, 0x9b05688c, 0x1f83d9ab, 0x5be0cd19
  ]

  /** Four bytes as one big-endian word. */
  function WordAt(block: seq<Byte>, i: nat): (w: Word)
    requires |block| == 64 && i < 16
  {
    ((block[4 * i] as Word) << 24) | ((block[4 * i + 1] as Word) << 16)
      | ((block[4 * i + 2] as Word) << 8) | (block[4 * i + 3] as Word)
  }

  /** The message schedule word W_t. */
  function W(block: seq<Byte>, t: nat): (w: Word)
    requires |block| == 64 && t < 64
  {
    if t < 16 then WordAt(block, t)
    else Add(Add(Add(SmallSigma1(W(block, t - 2)), W(block, t - 7)), SmallSigma0(W(block, t - 15))), W(block, t - 16))
  }

  datatype Working = Working(a: Word, b: Word, c: Word, d: Word, e: Word, f: Word, g: Word, h: Word)

  function Round(v: Working, k: Word, w: Word): (r: Working) {
    var t1 := Add(Add(Add(Add(v.h, BigSigma1(v.e)), Ch(v.e, v.f, v.g)), k), w);
    var t2 := Add(BigSigma0(v.a), Maj(v.a, v.b, v.c));
    Working(Add(t1, t2), v.a, v.b, v.c, Add(v.d, t1), v.e, v.f, v.g)
  }

  /** The working variables after the first t rounds. */
  function Rounds(v: Working, block: seq<Byte>, t: nat): (r: Working)
    requires |block| == 64 && t <= 64
  {
    if t == 0 then v else Round(Rounds(v, block, t - 1), K[t - 1], W(block, t - 1))
  }

  function Compress(h: seq<Word>, block: seq<Byte>): (r: seq<Word>)
    requires |h| == 8 && |block| == 64
    ensures |r| == 8
  {
    var v := Rounds(Working(h[0], h[1], h[2], h[3], h[4], h[5], h[6], h[7]), block, 64);
    [Add(h[0], v.a), Add(h[1], v.b), Add(h[2], v.c), Add(h[3], v.d), Add(h[4], v.e), Add(h[5], v.f), Add(h[6], v.g),
      Add(h[7], v.h)]
  }

  /** The hash value after all whole blocks of m. */
  function HashBlocks(h: seq<Word>, m: seq<Byte>): (r: seq<Word>)
    requires |h| == 8 && |m| % 64 == 0
    ensures |r| == 8
    decreases |m|
  {
    if m == [] then h else HashBlocks(Compress(h, m[..64]), m[64..])
  }

  /** n as width big-endian bytes. */
  function BigEndian(n: nat, width: nat): (r: seq<Byte>)
    ensures |r| == width
  {
    if width == 0 then [] else BigEndian(n / 256, width - 1) + [(n % 256) as Byte]
  }

  function Zeros(n: nat): (r: seq<Byte>)
    ensures |r| == n
  {
    seq(n, _ => 0)
  }

  /** The number of zero bytes that brings the message and its one bit to 56 modulo 64 bytes. */
  function ZeroCount(length: nat): (z: nat)
    ensures (length + 1 + z) % 64 == 56 && z < 64
  {
    if length % 64 < 56 then 55 - length % 64 else 119 - length % 64
  }

  lemma EightMore(n: nat)
    requires n % 64 == 56
    ensures (n + 8) % 64 == 0
  {
  }

  /** A one bit, zeros up to 56 modulo 64 bytes, and the length in bits as 64 bits. */
  function Padding(length: nat): (r: seq<Byte>)
    ensures |r| == 1 + ZeroCount(length) + 8
    ensures (length + |r|) % 64 == 0
  {
    var z := ZeroCount(length);
    EightMore(length + 1 + z);
    assert length + (1 + z + 8) == length + 1 + z + 8;
    [0x80] + Zeros(z) + BigEndian(8 * length, 8)
  }

  /** A word as four big-endian bytes. */
  function WordBytes(w: Word): (r: seq<Byte>)
    ensures |r| == 4
  {
    [((w >> 24) & 0xff) as Byte, ((w >> 16) & 0xff) as Byte, ((w >> 8) & 0xff) as Byte, (w & 0xff) as Byte]
  }

  function DigestBytes(h: seq<Word>): (r: seq<Byte>)
    ensures |r| == 4 * |h|
  {
    if h == [] then [] else DigestBytes(h[..|h| - 1]) + WordBytes(h[|h| - 1])
  }

  /** The hash of a message of fewer than 2^64 bits. */
  function Sha256(m: seq<Byte>): (r: seq<Byte>)
    requires |m| < 0x2000_0000_0000_0000
    ensures |r| == 32
  {
    DigestBytes(HashBlocks(INITIAL, m + Padding(|m|)))
  }

  // ----- block-wise hashing -----

  lemma {:induction false} HashOneMore(h: seq<Word>, m: seq<Byte>, block: seq<Byte>)
    requires |h| == 8 && |m| % 64 == 0 && |block| == 64
    ensures HashBlocks(h, m + block) == Compress(HashBlocks(h, m), block)
    decreases |m|
  {
    hide Compress;
    if m == [] {
      assert m + block == block && block[..64] == block && block[64..] == [];
    } else {
      assert (m + block)[..64] == m[..64] && (m + block)[64..] == m[64..] + block;
      HashOneMore(Compress(h, m[..64]), m[64..], block);
    }
  }

  function Pow256(n: nat): (r: nat)
    ensures r > 0
  {
    if n == 0 then 1 else 256 * Pow256(n - 1)
  }

  function ByteOf(n: nat, i: nat): (b: Byte) {
    ((n / Pow256(i)) % 256) as Byte
  }

  lemma DivideTwice(n: nat, d: nat)
    requires d > 0
    ensures n / (256 * d) == (n / 256) / d
  {
    var q := n / 256;
    var r := q % d;
    assert q == (q / d) * d + r;
    assert n == 256 * q + n % 256;
    assert n == (256 * d) * (q / d) + (256 * r + n % 256);
    QuotientIs(n, 256 * d, q / d, 256 * r + n % 256);
  }

  lemma MulMonotone(d: nat, a: nat, b: nat)
    requires a <= b
    ensures d * a <= d * b
  {
  }

  lemma QuotientIs(n: nat, d: nat, q: nat, r: nat)
    requires d > 0 && n == d * q + r && r < d
    ensures n / d == q
  {
    var p := n / d;
    assert n == d * p + n % d && 0 <= n % d < d;
    if p + 1 <= q {
      MulMonotone(d, p + 1, q);
      assert false;
    }
    if q + 1 <= p {
      MulMonotone(d, q + 1, p);
      assert false;
    }
  }

  lemma {:induction false} BigEndianByte(n: nat, width: nat, j: nat)
    requires j < width
    ensures BigEndian(n, width)[j] == ByteOf(n, width - 1 - j)
  {
    if j < width - 1 {
      BigEndianByte(n / 256, width - 1, j);
      DivideTwice(n, Pow256(width - 2 - j));
    }
  }

  // ----- the hasher -----

  method PrepareSchedule(block: array<Byte>) returns (w: array<Word>)
    requires block.Length == 64
    ensures fresh(w) && w.Length == 64 && forall t :: 0 <= t < 64 ==> w[t] == W(block[..], t)
  {
    hide W;
    ghost var b := block[..];
    w := new Word[64];
    for i := 0 to 16
      invariant forall t :: 0 <= t < i ==> w[t] == W(b, t)
    {
      w[i] := LoadWord(block, i);
      FirstWords(b, i);
    }
    ExtendSchedule(w, b);
  }

  lemma FirstWords(b: seq<Byte>, t: nat)
    requires |b| == 64 && t < 16
    ensures W(b, t) == WordAt(b, t)
  {
    hide WordAt;
  }

  method ExtendSchedule(w: array<Word>, ghost b: seq<Byte>)
    requires w.Length == 64 && |b| == 64 && forall t :: 0 <= t < 16 ==> w[t] == W(b, t)
    modifies w
    ensures forall t :: 0 <= t < 64 ==> w[t] == W(b, t)
  {
    hide W;
    for i := 16 to 64
      invariant forall t :: 0 <= t < i ==> w[t] == W(b, t)
    {
      w[i] := NextWord(w, i, b);
    }
  }

  method LoadWord(block: array<Byte>, i: nat) returns (word: Word)
    requires block.Length == 64 && i < 16
    ensures word == WordAt(block[..], i)
  {
    word := ((block[4 * i] as Word) << 24) | ((block[4 * i + 1] as Word) << 16)
      | ((block[4 * i + 2] as Word) << 8) | (block[4 * i + 3] as Word);
  }

  lemma AddCommutes(a: Word, b: Word)
    ensures Add(a, b) == Add(b, a)
  {
  }

  lemma AddAssociates(a: Word, b: Word, c: Word)
    ensures Add(Add(a, b), c) == Add(a, Add(b, c))
  {
    calc {
      Add(Add(a, b), c);
      { assert Add(a, b) == a + b; }
      Add(a + b, c);
      (a + b) + c;
      a + (b + c);
      Add(a, b + c);
      { assert Add(b, c) == b + c; }
      Add(a, Add(b, c));
    }
  }

  lemma AddOrder(a: Word, b: Word, c: Word, d: Word)
    ensures Add(Add(Add(a, b), c), d) == Add(Add(Add(d, c), b), a)
  {
    hide Add;
    AddCommutes(Add(Add(a, b), c), d);
    AddCommutes(Add(a, b), c);
    AddCommutes(a, b);
    AddAssociates(d, c, Add(b, a));
    AddAssociates(Add(d, c), b, a);
  }

  method NextWord(w: array<Word>, i: nat, ghost b: seq<Byte>) returns (word: Word)
    requires w.Length == 64 && 16 <= i < 64 && |b| == 64 && forall t :: 0 <= t < i ==> w[t] == W(b, t)
    ensures word == W(b, i)
  {
    hide SmallSigma0, SmallSigma1, Add, WordAt;
    var s0 := SmallSigma0(w[i - 15]);
    var s1 := SmallSigma1(w[i - 2]);
    word := Add(Add(Add(w[i - 16], s0), w[i - 7]), s1);
    AddOrder(w[i - 16], s0, w[i - 7], s1);
  }

  method Transform(state: array<Word>, block: array<Byte>)
    requires state.Length == 8 && block.Length == 64
    modifies state
    ensures state[..] == Compress(old(state[..]), block[..])
  {
    hide W, Rounds;
    ghost var m := block[..];
    var w := PrepareSchedule(block);
    var start := Working(state[0], state[1], state[2], state[3], state[4], state[5], state[6], state[7]);
    var v := RunRounds(start, w, m);
    hide Add;
    AddWorking(state, v);
  }

  method AddWorking(state: array<Word>, v: Working)
    requires state.Length == 8
    modifies state
    ensures state[..] == var h := old(state[..]);
      [Add(h[0], v.a), Add(h[1], v.b), Add(h[2], v.c), Add(h[3], v.d), Add(h[4], v.e), Add(h[5], v.f), Add(h[6], v.g),
        Add(h[7], v.h)]
  {
    hide Add;
    state[0], state[1], state[2], state[3] :=
      Add(state[0], v.a), Add(state[1], v.b), Add(state[2], v.c), Add(state[3], v.d);
    state[4], state[5], state[6], state[7] :=
      Add(state[4], v.e), Add(state[5], v.f), Add(state[6], v.g), Add(state[7], v.h);
  }

  method RunRounds(start: Working, w: array<Word>, ghost m: seq<Byte>) returns (v: Working)
    requires w.Length == 64 && |m| == 64 && forall t :: 0 <= t < 64 ==> w[t] == W(m, t)
    ensures v == Rounds(start, m, 64)
  {
    hide Round, W, Rounds;
    v := start;
    NoRounds(start, m);
    for i := 0 to 64
      invariant v == Rounds(start, m, i)
    {
      v := RunRound(v, i, w[i]);
      OneMoreRound(start, m, i);
    }
  }

  lemma NoRounds(v: Working, block: seq<Byte>)
    requires |block| == 64
    ensures Rounds(v, block, 0) == v
  {
  }

  lemma OneMoreRound(v: Working, block: seq<Byte>, i: nat)
    requires |block| == 64 && i < 64
    ensures Rounds(v, block, i + 1) == Round(Rounds(v, block, i), K[i], W(block, i))
  {
    hide Round, W;
  }

  method RunRound(v: Working, i: nat, w: Word) returns (r: Working)
    requires i < 64
    ensures r == Round(v, K[i], w)
  {
    hide Add, BigSigma0, BigSigma1, Ch, Maj;
    var s1 := BigSigma1(v.e);
    var ch := Ch(v.e, v.f, v.g);
    var t1 := Add(Add(Add(Add(v.h, s1), ch), K[i]), w);
    var s0 := BigSigma0(v.a);
    var maj := Maj(v.a, v.b, v.c);
    var t2 := Add(s0, maj);
    r := Working(Add(t1, t2), v.a, v.b, v.c, Add(v.d, t1), v.e, v.f, v.g);
  }

  const TWO_64: nat := 0x1_0000_0000_0000_0000

  /** The part of the message that does not fill a block yet. */
  ghost function Tail(m: seq<Byte>): (r: seq<Byte>)
    ensures |r| == |m| % 64
  {
    m[|m| - |m| % 64..]
  }

  ghost function Whole(m: seq<Byte>): (r: seq<Byte>)
    ensures |r| % 64 == 0
  {
    m[..|m| - |m| % 64]
  }

  /** Bytes that do not complete a block extend the tail; the byte that completes it empties the tail. */
  lemma AppendToTail(m: seq<Byte>, more: seq<Byte>)
    requires |Tail(m)| + |more| <= 64
    ensures |Tail(m)| + |more| < 64 ==> Tail(m + more) == Tail(m) + more && Whole(m + more) == Whole(m)
    ensures |Tail(m)| + |more| == 64 ==> Tail(m + more) == [] && Whole(m + more) == Whole(m) + (Tail(m) + more)
  {
    assert m == Whole(m) + Tail(m);
    var n := |m + more|;
    assert n == |Whole(m)| + (|Tail(m)| + |more|);
    if |Tail(m)| + |more| < 64 {
      assert n % 64 == |Tail(m)| + |more|;
    } else {
      assert n % 64 == 0;
    }
  }

  /** A count held in an unsigned 64-bit counter. */
  function Wrap(n: nat): (r: nat) {
    n % TWO_64
  }

  lemma WrapAdd(a: nat, b: nat)
    ensures Wrap(Wrap(a) + b) == Wrap(a + b)
  {
  }

  lemma ZerosSplit(a: nat, b: nat)
    ensures Zeros(a + b) == Zeros(a) + Zeros(b)
  {
  }

  lemma Regroup(whole: seq<Byte>, tail: seq<Byte>, one: seq<Byte>, zeros: seq<Byte>, length: seq<Byte>)
    ensures (whole + tail) + (one + zeros + length) == whole + (tail + one + zeros + length)
  {
  }

  lemma RegroupTwo(whole: seq<Byte>, tail: seq<Byte>, one: seq<Byte>, z1: seq<Byte>, z2: seq<Byte>, length: seq<Byte>)
    ensures (whole + tail) + (one + (z1 + z2) + length) == (whole + (tail + one + z1)) + (z2 + length)
  {
  }

  /** The padded message ends in one block, or in two when the tail leaves no room for the length. */
  lemma PaddedBlocks(m: seq<Byte>)
    ensures var t := Tail(m);
      m + Padding(|m|) == if |t| < 56
        then Whole(m) + (t + [0x80] + Zeros(55 - |t|) + BigEndian(8 * |m|, 8))
        else (Whole(m) + (t + [0x80] + Zeros(63 - |t|))) + (Zeros(56) + BigEndian(8 * |m|, 8))
  {
    hide BigEndian, Zeros;
    var t := Tail(m);
    assert m == Whole(m) + t;
    hide Tail, Whole;
    if |t| < 56 {
      Regroup(Whole(m), t, [0x80], Zeros(55 - |t|), BigEndian(8 * |m|, 8));
    } else {
      assert ZeroCount(|m|) == 63 - |t| + 56;
      ZerosSplit(63 - |t|, 56);
      RegroupTwo(Whole(m), t, [0x80], Zeros(63 - |t|), Zeros(56), BigEndian(8 * |m|, 8));
    }
  }

  class Hasher {
    const state: array<Word>
    const block: array<Byte>
    var blockSize: nat
    var totalBytes: nat
    ghost var message: seq<Byte>

    ghost predicate Valid()
      reads this, state, block
    {
      && state.Length == 8 && block.Length == 64 && blockSize < 64
      && block[..blockSize] == Tail(message)
      && state[..] == HashBlocks(INITIAL, Whole(message))
      && totalBytes == Wrap(|message|)
    }

    constructor ()
      ensures Valid() && message == [] && fresh(state) && fresh(block)
    {
      state := new Word[8] [0x6a09e667, 0xbb67ae85, 0x3c6ef372, 0xa54ff53a, 0x510e527f, 0x9b05688c, 0x1f83d9ab,
        0x5be0cd19];
      block := new Byte[64];
      blockSize, totalBytes, message := 0, 0, [];
    }

    method CopyIn(input: seq<Byte>, position: nat, count: nat)
      requires block.Length == 64 && blockSize + count <= 64 && position + count <= |input|
      modifies block
      ensures block[..blockSize + count] == old(block[..blockSize]) + input[position..position + count]
    {
      for j := 0 to count
        invariant block[..blockSize + j] == old(block[..blockSize]) + input[position..position + j]
      {
        block[blockSize + j] := input[position + j];
        assert block[..blockSize + j + 1] == block[..blockSize + j] + [input[position + j]];
      }
    }

    method Update(input: seq<Byte>)
      requires Valid()
      modifies this, state, block
      ensures Valid() && message == old(message) + input
    {
      hide HashBlocks, Tail, Whole, Wrap;
      ghost var total := |message| + |input|;
      WrapAdd(|message|, |input|);
      totalBytes := Wrap(totalBytes + |input|);
      var position := 0;
      while position < |input|
        invariant position <= |input| && message == old(message) + input[..position]
        invariant blockSize < 64 && block[..blockSize] == Tail(message)
        invariant state[..] == HashBlocks(INITIAL, Whole(message))
        invariant totalBytes == Wrap(total)
      {
        var copied := if |input| - position < 64 - blockSize then |input| - position else 64 - blockSize;
        Absorb(input, position, copied);
        assert input[..position + copied] == input[..position] + input[position..position + copied];
        position := position + copied;
      }
      assert input[..|input|] == input;
    }

    /** One round of the copy loop: fill the block and compress it when it is full. */
    method Absorb(input: seq<Byte>, position: nat, copied: nat)
      requires state.Length == 8 && block.Length == 64 && blockSize < 64 && block[..blockSize] == Tail(message)
      requires state[..] == HashBlocks(INITIAL, Whole(message))
      requires 0 < copied <= 64 - blockSize && position + copied <= |input|
      modifies this`blockSize, this`message, state, block
      ensures message == old(message) + input[position..position + copied]
      ensures blockSize < 64 && block[..blockSize] == Tail(message) && state[..] == HashBlocks(INITIAL, Whole(message))
    {
      hide HashBlocks, Compress, Tail, Whole;
      CopyIn(input, position, copied);
      ghost var more := input[position..position + copied];
      AppendToTail(message, more);
      blockSize := blockSize + copied;
      if blockSize == 64 {
        assert block[..] == Tail(message) + more;
        HashOneMore(INITIAL, Whole(message), block[..]);
        Transform(state, block);
        blockSize := 0;
      }
      message := message + more;
    }

    /** Clears block[from..to]. */
    method FillZero(from: nat, to: nat)
      requires block.Length == 64 && from <= to <= 64
      modifies block
      ensures block[from..to] == Zeros(to - from)
      ensures block[..from] == old(block[..from]) && block[to..] == old(block[to..])
    {
      for j := from to to
        invariant forall k :: from <= k < j ==> block[k] == 0
        invariant block[..from] == old(block[..from]) && block[to..] == old(block[to..])
      {
        block[j] := 0;
      }
    }

    method WriteLength(bitLength: nat)
      requires block.Length == 64
      modifies block
      ensures block[56..] == BigEndian(bitLength, 8) && block[..56] == old(block[..56])
    {
      hide BigEndian, ByteOf;
      ghost var goal := BigEndian(bitLength, 8);
      for i := 0 to 8
        invariant block[56..56 + i] == goal[..i] && block[..56] == old(block[..56])
      {
        BigEndianByte(bitLength, 8, i);
        block[56 + i] := ByteOf(bitLength, 7 - i);
        assert block[56..56 + i + 1] == block[56..56 + i] + [goal[i]];
      }
    }

    /** Compresses the full block, which continues the hashed blocks head. */
    method Flush(ghost head: seq<Byte>)
      requires state.Length == 8 && block.Length == 64 && |head| % 64 == 0 && state[..] == HashBlocks(INITIAL, head)
      modifies state
      ensures state[..] == HashBlocks(INITIAL, head + block[..])
    {
      hide HashBlocks, Compress;
      HashOneMore(INITIAL, head, block[..]);
      Transform(state, block);
    }

    /** The last block: zeros up to the length, the length, and one more compression. */
    method FinishBlock(bitLength: nat, ghost head: seq<Byte>)
      requires state.Length == 8 && block.Length == 64 && blockSize <= 56
      requires |head| % 64 == 0 && state[..] == HashBlocks(INITIAL, head)
      modifies state, block
      ensures state[..] == HashBlocks(INITIAL, head +
        (old(block[..blockSize]) + Zeros(56 - blockSize) + BigEndian(bitLength, 8)))
    {
      hide HashBlocks, Zeros, BigEndian;
      FillZero(blockSize, 56);
      assert block[..56] == block[..blockSize] + block[blockSize..56];
      WriteLength(bitLength);
      assert block[..] == block[..56] + block[56..];
      Flush(head);
    }

    /** The digest of everything fed so far, for messages within the limit of the standard. */
    method Finalize() returns (output: seq<Byte>)
      requires Valid()
      modifies this`blockSize, state, block
      ensures |message| < 0x2000_0000_0000_0000 ==> output == Sha256(message)
    {
      hide HashBlocks, Zeros, BigEndian, DigestBytes, Padding, Tail, Whole;
      ghost var m, t, whole := message, Tail(message), Whole(message);
      var bitLength := Wrap(totalBytes * 8);
      assert |m| < 0x2000_0000_0000_0000 ==> bitLength == 8 * |m|;
      PaddedBlocks(m);
      assert block[..blockSize] == t;
      block[blockSize] := 0x80;
      blockSize := blockSize + 1;
      assert block[..blockSize] == t + [0x80];
      if blockSize > 56 {
        FillZero(blockSize, 64);
        assert block[..] == block[..blockSize] + block[blockSize..64] == t + [0x80] + Zeros(63 - |t|);
        Flush(whole);
        ghost var head := whole + (t + [0x80] + Zeros(63 - |t|));
        blockSize := 0;
        assert block[..blockSize] + Zeros(56) == Zeros(56);
        FinishBlock(bitLength, head);
        assert |m| < 0x2000_0000_0000_0000 ==> head + (Zeros(56) + BigEndian(bitLength, 8)) == m + Padding(|m|);
      } else {
        FinishBlock(bitLength, whole);
        assert |m| < 0x2000_0000_0000_0000 ==>
          whole + (t + [0x80] + Zeros(55 - |t|) + BigEndian(bitLength, 8)) == m + Padding(|m|);
      }
      output := DigestBytes(state[..]);
    }
  }

  /** The digest does not depend on how the message is cut into updates. */
  method HashChunks(chunks: seq<seq<Byte>>) returns (output: seq<Byte>)
    ensures |Joined(chunks)| < 0x2000_0000_0000_0000 ==> output == Sha256(Joined(chunks))
  {
    hide Hasher.Valid, Sha256;
    var hasher := new Hasher();
    for i := 0 to |chunks|
      invariant hasher.Valid() && fresh(hasher) && fresh(hasher.state) && fresh(hasher.block)
      invariant hasher.message == Joined(chunks[..i])
    {
      hasher.Update(chunks[i]);
      assert chunks[..i + 1][..i] == chunks[..i];
    }
    assert chunks[..|chunks|] == chunks;
    output := hasher.Finalize();
  }

  function Joined(chunks: seq<seq<Byte>>): (r: seq<Byte>) {
    if chunks == [] then [] else Joined(chunks[..|chunks| - 1]) + chunks[|chunks| - 1]
  }

  /** The file loop: reads of at most 64 KiB until one comes back empty. */
  method HashFile(content: seq<Byte>) returns (output: seq<Byte>)
    ensures |content| < 0x2000_0000_0000_0000 ==> output == Sha256(content)
  {
    hide Hasher.Valid, Sha256;
    var hasher := new Hasher();
    var position := 0;
    while position < |content|
      invariant position <= |content| && hasher.message == content[..position]
      invariant hasher.Valid() && fresh(hasher) && fresh(hasher.state) && fresh(hasher.block)
    {
      var count := if |content| - position < 65536 then |content| - position else 65536;
      hasher.Update(content[position..position + count]);
      assert content[..position + count] == content[..position] + content[position..position + count];
      position := position + count;
    }
    assert content[..|content|] == content;
    output := hasher.Finalize();
  }
}
