/**
  SHA-256 as the scrambler computes it, against sections 5 and 6.2 of FIPS 180-4: padding,
  parsing into blocks, the message schedule and the round recurrence.
 */
module Sha256 {
  import opened Ast

  // ----- section 4: functions and constants -----

  /** Addition modulo 2^32. */
  function Add(x: uint32, y: uint32): uint32 {
    ((x as int + y as int) % 0x1_0000_0000) as uint32
  }

  function Rotr(x: bv32, n: bv6): bv32
    requires 0 < n < 32
  {
    (x >> n) | (x << (32 - n))
  }

  function Ch(x: uint32, y: uint32, z: uint32): uint32 {
    (((x as bv32) & (y as bv32)) ^ (!(x as bv32) & (z as bv32))) as uint32
  }

  function Maj(x: uint32, y: uint32, z: uint32): uint32 {
    (((x as bv32) & (y as bv32)) ^ ((x as bv32) & (z as bv32)) ^ ((y as bv32) & (z as bv32))) as uint32
  }

  function BigSigma0(x: uint32): uint32 {
    (Rotr(x as bv32, 2) ^ Rotr(x as bv32, 13) ^ Rotr(x as bv32, 22)) as uint32
  }

  function BigSigma1(x: uint32): uint32 {
    (Rotr(x as bv32, 6) ^ Rotr(x as bv32, 11) ^ Rotr(x as bv32, 25)) as uint32
  }

  function SmallSigma0(x: uint32): uint32 {
    (Rotr(x as bv32, 7) ^ Rotr(x as bv32, 18) ^ ((x as bv32) >> 3)) as uint32
  }

  function SmallSigma1(x: uint32): uint32 {
    (Rotr(x as bv32, 17) ^ Rotr(x as bv32, 19) ^ ((x as bv32) >> 10)) as uint32
  }

  const ROUND_CONSTANTS: seq<uint32> :=
    [0x428a2f98, 0x71374491, 0xb5c0fbcf, 0xe9b5dba5, 0x3956c25b, 0x59f111f1, 0x923f82a4, 0xab1c5ed5] +
    [0xd807aa98, 0x12835b01, 0x243185be, 0x550c7dc3, 0x72be5d74, 0x80deb1fe, 0x9bdc06a7, 0xc19bf174] +
    [0xe49b69c1, 0xefbe4786, 0x0fc19dc6, 0x240ca1cc, 0x2de92c6f, 0x4a7484aa, 0x5cb0a9dc, 0x76f988da] +
    [0x983e5152, 0xa831c66d, 0xb00327c8, 0xbf597fc7, 0xc6e00bf3, 0xd5a79147, 0x06ca6351, 0x14292967] +
    [0x27b70a85, 0x2e1b2138, 0x4d2c6dfc, 0x53380d13, 0x650a7354, 0x766a0abb, 0x81c2c92e, 0x92722c85] +
    [0xa2bfe8a1, 0xa81a664b, 0xc24b8b70, 0xc76c51a3, 0xd192e819, 0xd6990624, 0xf40e3585, 0x106aa070] +
    [0x19a4c116, 0x1e376c08, 0x2748774c, 0x34b0bcb5, 0x391c0cb3, 0x4ed8aa4a, 0x5b9cca4f, 0x682e6ff3] +
    [0x748f82ee, 0x78a5636f, 0x84c87814, 0x8cc70208, 0x90befffa, 0xa4506ceb, 0xbef9a3f7, 0xc67178f2]

  function K(t: nat): uint32
    requires t < 64
  {
    assert |ROUND_CONSTANTS| == 64;
    ROUND_CONSTANTS[t]
  }

  const INITIAL: seq<uint32> := [
    0x6a09e667, 0xbb67ae85, 0x3c6ef372, 0xa54ff53a, 0x510e527f, 0x9b05688c, 0x1f83d9ab, 0x5be0cd19]

  // ----- section 6.2.2: one block -----

  /** A block's word t, from its four bytes, most significant first. */
  function Word(block: seq<byte>, t: nat): uint32
    requires |block| == 64 && t < 16
  {
    (block[4 * t] as uint32) * 0x100_0000 + (block[4 * t + 1] as uint32) * 0x1_0000 +
    (block[4 * t + 2] as uint32) * 0x100 + (block[4 * t + 3] as uint32)
  }

  /** The message schedule. */
  function W(block: seq<byte>, t: nat): uint32
    requires |block| == 64
  {
    if t < 16 then Word(block, t)
    else
      Add(Add(Add(SmallSigma1(W(block, t - 2)), W(block, t - 7)), SmallSigma0(W(block, t - 15))), W(block, t - 16))
  }

  /** The first temporary of a round. */
  function Mix(e: uint32, f: uint32, g: uint32, h: uint32, k: uint32, w: uint32): uint32 {
    Add(Add(Add(Add(h, BigSigma1(e)), Ch(e, f, g)), k), w)
  }

  /** The second one. */
  function T2(a: uint32, b: uint32, c: uint32): uint32 { Add(BigSigma0(a), Maj(a, b, c)) }

  /**
    The rounds as two sequences: A(t) and E(t) are the working variables a and e after t rounds;
    b, c, d and f, g, h are the values these had one, two and three rounds before, where the
    hash value supplies the ones before the first round.
   */
  function A(h: seq<uint32>, block: seq<byte>, t: int): uint32
    requires |h| == 8 && |block| == 64 && -3 <= t <= 64
    decreases t + 3, 1
  {
    if t <= 0 then h[-t]
    else
      Add(T1(h, block, t - 1), T2(A(h, block, t - 1), A(h, block, t - 2), A(h, block, t - 3)))
  }

  function E(h: seq<uint32>, block: seq<byte>, t: int): uint32
    requires |h| == 8 && |block| == 64 && -3 <= t <= 64
    decreases t + 3, 1
  {
    if t <= 0 then h[4 - t] else Add(A(h, block, t - 4), T1(h, block, t - 1))
  }

  function T1(h: seq<uint32>, block: seq<byte>, t: nat): uint32
    requires |h| == 8 && |block| == 64 && t < 64
    decreases t + 3, 2
  {
    Mix(E(h, block, t), E(h, block, t - 1), E(h, block, t - 2), E(h, block, t - 3), K(t), W(block, t))
  }

  /** The next hash value. */
  function Compress(h: seq<uint32>, block: seq<byte>): (r: seq<uint32>)
    requires |h| == 8 && |block| == 64
    ensures |r| == 8
  {
    seq(8, i requires 0 <= i < 8 => Add(h[i], if i < 4 then A(h, block, 64 - i) else E(h, block, 68 - i)))
  }

  lemma WStep(block: seq<byte>, t: nat)
    requires |block| == 64 && t >= 16
    ensures W(block, t) ==
      Add(Add(Add(W(block, t - 16), SmallSigma0(W(block, t - 15))), W(block, t - 7)), SmallSigma1(W(block, t - 2)))
  {
    hide SmallSigma0, SmallSigma1, Word, Add;
    AddReversed(SmallSigma1(W(block, t - 2)), W(block, t - 7), SmallSigma0(W(block, t - 15)), W(block, t - 16));
  }

  lemma AddIs(x: uint32, y: uint32)
    ensures Add(x, y) == if x + y < 0x1_0000_0000 then x + y else x + y - 0x1_0000_0000
  {
  }

  lemma AddAssoc(x: uint32, y: uint32, z: uint32)
    ensures Add(Add(x, y), z) == Add(x, Add(y, z)) && Add(x, y) == Add(y, x)
  {
    hide Add;
    AddIs(x, y);
    AddIs(y, x);
    AddIs(y, z);
    AddIs(Add(x, y), z);
    AddIs(x, Add(y, z));
  }

  lemma AddReversed(a: uint32, b: uint32, c: uint32, d: uint32)
    ensures Add(Add(Add(a, b), c), d) == Add(Add(Add(d, c), b), a)
  {
    hide Add;
    AddAssoc(Add(a, b), c, d);
    AddAssoc(c, d, d);
    AddAssoc(Add(a, b), Add(d, c), d);
    AddAssoc(a, b, b);
    AddAssoc(Add(d, c), b, a);
  }

  /** One round, as the rotation of eight registers. */
  lemma RoundStep(h: seq<uint32>, block: seq<byte>, t: nat)
    requires |h| == 8 && |block| == 64 && t < 64
    ensures E(h, block, t + 1) == Add(A(h, block, t - 3), T1(h, block, t))
    ensures A(h, block, t + 1) == Add(T1(h, block, t), T2(A(h, block, t), A(h, block, t - 1), A(h, block, t - 2)))
  {
    hide T1, T2, Add;
  }

  method ScheduleWords(block: seq<byte>) returns (w: array<uint32>)
    requires |block| == 64
    ensures fresh(w) && w.Length == 64 && forall t :: 0 <= t < 64 ==> w[t] == W(block, t)
  {
    hide W, Word, SmallSigma0, SmallSigma1, Add;
    w := new uint32[64];
    for i := 0 to 16
      invariant forall t :: 0 <= t < i ==> w[t] == W(block, t)
    {
      WStart(block, i);
      w[i] := Word(block, i);
    }
    for i := 16 to 64
      invariant forall t :: 0 <= t < i ==> w[t] == W(block, t)
    {
      WStep(block, i);
      var s0 := SmallSigma0(w[i - 15]);
      var s1 := SmallSigma1(w[i - 2]);
      w[i] := Add(Add(Add(w[i - 16], s0), w[i - 7]), s1);
    }
  }

  lemma WStart(block: seq<byte>, t: nat)
    requires |block| == 64 && t < 16
    ensures W(block, t) == Word(block, t)
  {
  }

  /** The working variables. */
  datatype Registers = Registers(a: uint32, b: uint32, c: uint32, d: uint32, e: uint32, f: uint32, g: uint32, h: uint32)

  /** The registers hold the two sequences' last four values after t rounds. */
  predicate After(h0: seq<uint32>, block: seq<byte>, t: nat, r: Registers)
    requires |h0| == 8 && |block| == 64 && t <= 64
  {
    && r.a == A(h0, block, t) && r.b == A(h0, block, t - 1) && r.c == A(h0, block, t - 2) && r.d == A(h0, block, t - 3)
    && r.e == E(h0, block, t) && r.f == E(h0, block, t - 1) && r.g == E(h0, block, t - 2) && r.h == E(h0, block, t - 3)
  }

  /** One rotation takes the registers from one round to the next. */
  lemma Rotates(h0: seq<uint32>, block: seq<byte>, t: nat, r: Registers, t1: uint32, t2: uint32)
    requires |h0| == 8 && |block| == 64 && t < 64 && After(h0, block, t, r)
    requires t1 == Mix(r.e, r.f, r.g, r.h, K(t), W(block, t)) && t2 == T2(r.a, r.b, r.c)
    ensures After(h0, block, t + 1, Registers(Add(t1, t2), r.a, r.b, r.c, Add(r.d, t1), r.e, r.f, r.g))
  {
    hide W, K, A, E, T1, T2, Mix, Add;
    T1Is(h0, block, t);
    RoundStep(h0, block, t);
  }

  /** The 64 rotations of the registers a, ..., h. */
  method Rounds(h0: seq<uint32>, ghost block: seq<byte>, w: array<uint32>) returns (r: Registers)
    requires |h0| == 8 && |block| == 64 && w.Length == 64 && forall t :: 0 <= t < 64 ==> w[t] == W(block, t)
    ensures After(h0, block, 64, r)
  {
    hide W, K, T2, Mix, Add, After;
    var a, b, c, d, e, f, g, h := h0[0], h0[1], h0[2], h0[3], h0[4], h0[5], h0[6], h0[7];
    RoundsStart(h0, block);
    for i := 0 to 64
      invariant After(h0, block, i, Registers(a, b, c, d, e, f, g, h))
    {
      var t1 := Mix(e, f, g, h, K(i), w[i]);
      var t2 := T2(a, b, c);
      Rotates(h0, block, i, Registers(a, b, c, d, e, f, g, h), t1, t2);
      h := g;
      g := f;
      f := e;
      e := Add(d, t1);
      d := c;
      c := b;
      b := a;
      a := Add(t1, t2);
    }
    r := Registers(a, b, c, d, e, f, g, h);
  }

  /** Sha256Block: the schedule, the rounds, and the sums that give the next hash value. */
  method Sha256Block(state: array<uint32>, block: seq<byte>)
    requires state.Length == 8 && |block| == 64
    modifies state
    ensures state[..] == Compress(old(state[..]), block)
  {
    hide W, A, E, Add;
    ghost var h0 := state[..];
    var w := ScheduleWords(block);
    var r := Rounds(state[..], block, w);
    state[0] := Add(state[0], r.a);
    state[1] := Add(state[1], r.b);
    state[2] := Add(state[2], r.c);
    state[3] := Add(state[3], r.d);
    state[4] := Add(state[4], r.e);
    state[5] := Add(state[5], r.f);
    state[6] := Add(state[6], r.g);
    state[7] := Add(state[7], r.h);
    forall i | 0 <= i < 8 ensures state[i] == Compress(h0, block)[i] {
      assert i in {0, 1, 2, 3, 4, 5, 6, 7};
    }
  }

  lemma RoundsStart(h: seq<uint32>, block: seq<byte>)
    requires |h| == 8 && |block| == 64
    ensures After(h, block, 0, Registers(h[0], h[1], h[2], h[3], h[4], h[5], h[6], h[7]))
  {
  }

  lemma T1Is(h: seq<uint32>, block: seq<byte>, t: nat)
    requires |h| == 8 && |block| == 64 && t < 64
    ensures T1(h, block, t) ==
      Mix(E(h, block, t), E(h, block, t - 1), E(h, block, t - 2), E(h, block, t - 3), K(t), W(block, t))
  {
    hide E, W, K, Mix;
  }

  // ----- section 5: padding and parsing -----

  /** The fewest zero bytes that leave room for the length at the end of a block. */
  function Zeros(len: nat): (z: nat)
    ensures z < 64 && (len + 1 + z) % 64 == 56
  {
    (119 - len % 64) % 64
  }

  /** An integer in n bytes, most significant first; higher bytes are cut off. */
  function BigEndian(x: nat, n: nat): (s: seq<byte>)
    ensures |s| == n
  {
    if n == 0 then [] else BigEndian(x / 0x100, n - 1) + [x % 0x100]
  }

  function FromBigEndian(s: seq<byte>): nat {
    if s == [] then 0 else FromBigEndian(s[..|s| - 1]) * 0x100 + s[|s| - 1]
  }

  function ZeroBytes(n: nat): (s: seq<byte>)
    ensures |s| == n
  {
    seq(n, _ => 0)
  }

  /** The bit count as the code keeps it, in 64 bits. */
  function BitCount(len: nat): nat { 8 * len % 0x1_0000_0000_0000_0000 }

  /** A one bit, zero bits up to 448 modulo 512, and the length in bits. */
  function Padding(len: nat): (p: seq<byte>)
    ensures |p| == 9 + Zeros(len)
  {
    [0x80] + ZeroBytes(Zeros(len)) + BigEndian(BitCount(len), 8)
  }

  function Padded(message: seq<byte>): (p: seq<byte>)
    ensures |p| % 64 == 0 && p != []
  {
    PaddedLength(|message|);
    message + Padding(|message|)
  }

  lemma PaddedLength(len: nat)
    ensures (len + 9 + Zeros(len)) % 64 == 0
  {
    assert len + 9 + Zeros(len) == (len + 1 + Zeros(len)) + 8;
  }

  /** The hash value after all blocks of 64 bytes. */
  function Blocks(h: seq<uint32>, bytes: seq<byte>): (r: seq<uint32>)
    requires |h| == 8 && |bytes| % 64 == 0
    ensures |r| == 8
    decreases |bytes|
  {
    if bytes == [] then h else Blocks(Compress(h, bytes[..64]), bytes[64..])
  }

  function WordBytes(h: seq<uint32>): (s: seq<byte>)
    ensures |s| == 4 * |h|
  {
    if h == [] then [] else BigEndian(h[0], 4) + WordBytes(h[1..])
  }

  function Digest(message: seq<byte>): seq<byte> {
    assert |INITIAL| == 8;
    WordBytes(Blocks(INITIAL, Padded(message)))
  }

  lemma {:induction false} BlocksSnoc(h: seq<uint32>, bytes: seq<byte>, block: seq<byte>)
    requires |h| == 8 && |bytes| % 64 == 0 && |block| == 64
    ensures Blocks(h, bytes + block) == Compress(Blocks(h, bytes), block)
    decreases |bytes|
  {
    hide Compress;
    var all := bytes + block;
    if bytes == [] {
      assert all[..64] == block && all[64..] == [];
    } else {
      assert all[..64] == bytes[..64] && all[64..] == bytes[64..] + block;
      BlocksSnoc(Compress(h, bytes[..64]), bytes[64..], block);
    }
  }

  /** `x >> 8 * n`. */
  function Shifted(x: nat, n: nat): nat {
    if n == 0 then x else Shifted(x / 0x100, n - 1)
  }

  lemma {:induction false} BigEndianAt(x: nat, n: nat, j: nat)
    requires j < n
    ensures BigEndian(x, n)[n - 1 - j] == Shifted(x, j) % 0x100
  {
    if j > 0 { BigEndianAt(x / 0x100, n - 1, j - 1); }
  }

  /** A tail short enough for one more block. */
  lemma OneMore(data: seq<byte>, off: nat, block: seq<byte>)
    requires off % 64 == 0 && off <= |data| <= off + 55
    requires block == data[off..] + [0x80] + ZeroBytes(55 - (|data| - off)) + BigEndian(BitCount(|data|), 8)
    ensures |block| == 64 && data[..off] + block == Padded(data)
  {
    hide BigEndian, BitCount, ZeroBytes, Padding;
    var tail, p := data[off..], Padding(|data|);
    PaddingInOne(|data|, |data| - off);
    assert block == tail + p;
    assert data[..off] + tail == data;
    Regroup(data[..off], tail, p);
  }

  lemma PaddingInOne(len: nat, rem: nat)
    requires rem <= 55 && rem <= len && (len - rem) % 64 == 0
    ensures Padding(len) == [0x80] + ZeroBytes(55 - rem) + BigEndian(BitCount(len), 8)
  {
    hide BigEndian, BitCount, ZeroBytes;
    assert len % 64 == rem;
  }

  lemma Regroup(a: seq<byte>, b: seq<byte>, c: seq<byte>)
    ensures a + (b + c) == a + b + c
  {
  }

  /** A tail that needs two. */
  lemma TwoMore(data: seq<byte>, off: nat, first: seq<byte>, second: seq<byte>)
    requires off % 64 == 0 && off + 56 <= |data| < off + 64
    requires first == data[off..] + [0x80] + ZeroBytes(63 - (|data| - off))
    requires second == ZeroBytes(56) + BigEndian(BitCount(|data|), 8)
    ensures |first| == 64 && |second| == 64 && data[..off] + first + second == Padded(data)
  {
    hide BigEndian, BitCount;
    assert Zeros(|data|) == 119 - (|data| - off) by { assert |data| % 64 == |data| - off; }
    assert ZeroBytes(Zeros(|data|)) == ZeroBytes(63 - (|data| - off)) + ZeroBytes(56);
    assert data == data[..off] + data[off..];
    assert data[..off] + first + second == data[..off] + data[off..] + Padding(|data|);
  }

  /** Writes the length into a block's last eight bytes. */
  method PutLength(block: array<byte>, len: nat)
    requires block.Length == 64
    modifies block
    ensures block[..] == old(block[..56]) + BigEndian(BitCount(len), 8)
  {
    hide BigEndian, BitCount, Shifted;
    var bits := BitCount(len);
    for i := 0 to 8
      invariant block[..56] == old(block[..56])
      invariant forall j :: 64 - i <= j < 64 ==> block[j] == BigEndian(bits, 8)[j - 56]
    {
      BigEndianAt(bits, 8, i);
      block[63 - i] := Shifted(bits, i) % 0x100;
    }
    assert block[56..] == BigEndian(bits, 8);
    assert block[..] == block[..56] + block[56..];
  }

  /** Sha256: whole blocks as they come, then the tail with its padding in one block or two. */
  method Sha256(data: seq<byte>, out: array<byte>)
    requires out.Length == 32
    modifies out
    ensures out[..] == Digest(data)
  {
    hide Compress, Blocks, BigEndian, BitCount, Padded, WordBytes;
    var state := new uint32[8](i requires 0 <= i < 8 => INITIAL[i]);
    assert state[..] == INITIAL;
    var off := 0;
    BlocksNone(INITIAL);
    assert data[..0] == [];
    while |data| - off >= 64
      invariant off <= |data| && off % 64 == 0 && fresh(state)
      invariant state[..] == Blocks(INITIAL, data[..off])
    {
      assert data[..off + 64] == data[..off] + data[off..off + 64];
      BlocksSnoc(INITIAL, data[..off], data[off..off + 64]);
      Sha256Block(state, data[off..off + 64]);
      off := off + 64;
    }
    Finish(data, off, state);
    PutState(state, out);
  }

  lemma BlocksNone(h: seq<uint32>)
    requires |h| == 8
    ensures Blocks(h, []) == h
  {
  }

  /** The tail of the message, after its whole blocks. */
  method Finish(data: seq<byte>, off: nat, state: array<uint32>)
    requires off % 64 == 0 && off <= |data| < off + 64 && state.Length == 8
    requires state[..] == Blocks(INITIAL, data[..off])
    modifies state
    ensures state[..] == Blocks(INITIAL, Padded(data))
  {
    hide Compress, Blocks, BigEndian, BitCount, Padded;
    var rem := |data| - off;
    var block := new byte[64];
    forall j | 0 <= j < rem { block[j] := data[off + j]; }
    block[rem] := 0x80;
    if rem + 1 <= 56 {
      forall j | rem + 1 <= j < 56 { block[j] := 0; }
      assert block[..56] == data[off..] + [0x80] + ZeroBytes(55 - rem);
      PutLength(block, |data|);
      OneMore(data, off, block[..]);
      BlocksSnoc(INITIAL, data[..off], block[..]);
      assert state[..] == Blocks(INITIAL, data[..off]);
      assert data[..off] + block[..] == Padded(data);
    } else {
      forall j | rem + 1 <= j < 64 { block[j] := 0; }
      ghost var first := block[..];
      assert first == data[off..] + [0x80] + ZeroBytes(63 - rem);
      BlocksSnoc(INITIAL, data[..off], first);
      assert state[..] == Blocks(INITIAL, data[..off]) && block[..] == first;
      Sha256Block(state, block[..]);
      assert state[..] == Blocks(INITIAL, data[..off] + first);
      forall j | 0 <= j < 56 { block[j] := 0; }
      assert block[..56] == ZeroBytes(56);
      PutLength(block, |data|);
      TwoMore(data, off, first, block[..]);
      BlocksSnoc(INITIAL, data[..off] + first, block[..]);
      assert state[..] == Blocks(INITIAL, data[..off] + first);
      assert data[..off] + first + block[..] == Padded(data);
    }
    Sha256Block(state, block[..]);
  }

  lemma {:induction false} WordBytesAt(h: seq<uint32>, i: nat, k: nat)
    requires i < |h| && k < 4
    ensures WordBytes(h)[4 * i + k] == BigEndian(h[i], 4)[k]
  {
    hide BigEndian;
    if i > 0 { WordBytesAt(h[1..], i - 1, k); }
  }

  method PutState(state: array<uint32>, out: array<byte>)
    requires state.Length == 8 && out.Length == 32
    modifies out
    ensures out[..] == WordBytes(state[..])
  {
    hide BigEndian, WordBytes, Shifted;
    for i := 0 to 8
      invariant forall j :: 0 <= j < 4 * i ==> out[j] == WordBytes(state[..])[j]
    {
      for k := 0 to 4
        invariant forall j :: 0 <= j < 4 * i + k ==> out[j] == WordBytes(state[..])[j]
      {
        BigEndianAt(state[i], 4, 3 - k);
        WordBytesAt(state[..], i, k);
        out[4 * i + k] := Shifted(state[i], 3 - k) % 0x100;
      }
    }
  }

  // ----- padding can be taken off again -----

  function Pow256(n: nat): nat { if n == 0 then 1 else 0x100 * Pow256(n - 1) }

  lemma {:induction false} BigEndianInverse(x: nat, n: nat)
    requires x < Pow256(n)
    ensures FromBigEndian(BigEndian(x, n)) == x
  {
    if n > 0 {
      BigEndianInverse(x / 0x100, n - 1);
      assert BigEndian(x, n)[..n - 1] == BigEndian(x / 0x100, n - 1);
    }
  }

  /** Below 2^61 bytes the padded message tells the message. */
  lemma PaddingIsInjective(a: seq<byte>, b: seq<byte>)
    requires |a| < 0x2000_0000_0000_0000 && |b| < 0x2000_0000_0000_0000
    requires Padded(a) == Padded(b)
    ensures a == b
  {
    hide BigEndian, FromBigEndian, Zeros, Pow256;
    assert Pow256(8) == 0x1_0000_0000_0000_0000 by { Pow256Is(); }
    LengthField(a);
    LengthField(b);
    assert Padded(a)[..|a|] == a && Padded(b)[..|b|] == b;
  }

  lemma Pow256Is()
    ensures Pow256(8) == 0x1_0000_0000_0000_0000
  {
    assert Pow256(2) == 0x1_0000;
    assert Pow256(4) == 0x1_0000_0000;
    assert Pow256(6) == 0x1_0000_0000_0000;
  }

  /** Behind the message stand the byte 0x80 and zeros, fewer than 64, up to its last eight bytes, in whole blocks. */
  lemma PaddedBytes(message: seq<byte>)
    ensures var p, n := Padded(message), |message|;
            && |p| % 64 == 0 && n + 9 <= |p| < n + 9 + 64
            && p[..n] == message && p[n] == 0x80
            && forall i :: n < i < |p| - 8 ==> p[i] == 0
  {
    hide BigEndian, Zeros;
    var n, z := |message|, Zeros(|message|);
    var p := Padded(message);
    PaddedLength(n);
    assert p == message + Padding(n);
    forall i | n < i < |p| - 8 ensures p[i] == 0 {
      assert p[i] == Padding(n)[i - n] == ZeroBytes(z)[i - n - 1];
    }
  }

  /** A padded message ends in its length in bits. */
  lemma LengthField(message: seq<byte>)
    requires |message| < 0x2000_0000_0000_0000
    ensures FromBigEndian(Padded(message)[|Padded(message)| - 8..]) == 8 * |message|
  {
    hide BigEndian, FromBigEndian, Zeros, Pow256;
    var p := Padded(message);
    Pow256Is();
    assert p[|p| - 8..] == BigEndian(BitCount(|message|), 8);
    BigEndianInverse(BitCount(|message|), 8);
  }
}
