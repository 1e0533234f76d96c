/**
  The functions and constants of SHA-256 as sections 4, 5.3.3 and 6.2.2 of FIPS 180-4 describe
  them: values of the functions, sums modulo 2^32, and the roots of primes.
 */
module Sha256Standard {
  import opened Ast
  import opened Sha256

  // ----- functions -----

  lemma Back(b: bv32)
    ensures (b as uint32) as bv32 == b
  {
  }

  /** A number and its bits. */
  lemma Literal(n: uint32, b: bv32)
    requires b as uint32 == n
    ensures n as bv32 == b
  {
    Back(b);
  }

  lemma BigSigma0Of(n: uint32, b: bv32)
    requires n as bv32 == b
    ensures BigSigma0(n) == (Rotr(b, 2) ^ Rotr(b, 13) ^ Rotr(b, 22)) as uint32
  {
    hide Rotr;
  }

  lemma BigSigma1Of(n: uint32, b: bv32)
    requires n as bv32 == b
    ensures BigSigma1(n) == (Rotr(b, 6) ^ Rotr(b, 11) ^ Rotr(b, 25)) as uint32
  {
    hide Rotr;
  }

  lemma SmallSigma0Of(n: uint32, b: bv32)
    requires n as bv32 == b
    ensures SmallSigma0(n) == (Rotr(b, 7) ^ Rotr(b, 18) ^ (b >> 3)) as uint32
  {
    hide Rotr;
  }

  lemma SmallSigma1Of(n: uint32, b: bv32)
    requires n as bv32 == b
    ensures SmallSigma1(n) == (Rotr(b, 17) ^ Rotr(b, 19) ^ (b >> 10)) as uint32
  {
    hide Rotr;
  }

  lemma ChOf(x: uint32, a: bv32, y: uint32, b: bv32, z: uint32, c: bv32)
    requires x as bv32 == a && y as bv32 == b && z as bv32 == c
    ensures Ch(x, y, z) == ((a & b) ^ (!a & c)) as uint32
  {
  }

  lemma MajOf(x: uint32, a: bv32, y: uint32, b: bv32, z: uint32, c: bv32)
    requires x as bv32 == a && y as bv32 == b && z as bv32 == c
    ensures Maj(x, y, z) == ((a & b) ^ (a & c) ^ (b & c)) as uint32
  {
  }

  // their values in the first rounds of the example "abc" of FIPS 180-2, appendix B.1

  lemma BigSigma0Value()
    ensures BigSigma0(0x6a09e667) == 0xce20b47e
  {
    hide BigSigma0;
    Literal(0x6a09e667, 0x6a09e667);
    BigSigma0Of(0x6a09e667, 0x6a09e667);
  }

  lemma BigSigma1Value()
    ensures BigSigma1(0x510e527f) == 0x3587272b
  {
    hide BigSigma1;
    Literal(0x510e527f, 0x510e527f);
    BigSigma1Of(0x510e527f, 0x510e527f);
  }

  lemma SmallSigma0Value()
    ensures SmallSigma0(0x61626380) == 0x940e90ef
  {
    hide SmallSigma0;
    Literal(0x61626380, 0x61626380);
    SmallSigma0Of(0x61626380, 0x61626380);
  }

  lemma SmallSigma1Value()
    ensures SmallSigma1(0x000f0000) == 0x600003c6
  {
    hide SmallSigma1;
    Literal(0x000f0000, 0x000f0000);
    SmallSigma1Of(0x000f0000, 0x000f0000);
  }

  lemma ChValue()
    ensures Ch(0x510e527f, 0x9b05688c, 0x1f83d9ab) == 0x1f85c98c
  {
    hide Ch;
    Literal(0x510e527f, 0x510e527f);
    Literal(0x9b05688c, 0x9b05688c);
    Literal(0x1f83d9ab, 0x1f83d9ab);
    ChOf(0x510e527f, 0x510e527f, 0x9b05688c, 0x9b05688c, 0x1f83d9ab, 0x1f83d9ab);
  }

  lemma MajValue()
    ensures Maj(0x6a09e667, 0xbb67ae85, 0x3c6ef372) == 0x3a6fe667
  {
    hide Maj;
    Literal(0x6a09e667, 0x6a09e667);
    Literal(0xbb67ae85, 0xbb67ae85);
    Literal(0x3c6ef372, 0x3c6ef372);
    MajOf(0x6a09e667, 0x6a09e667, 0xbb67ae85, 0xbb67ae85, 0x3c6ef372, 0x3c6ef372);
  }

  // ----- sums -----

  /** Word t of the schedule, modulo 2^32. */
  lemma ScheduleSum(block: seq<byte>, t: nat)
    requires |block| == 64
    ensures t < 16 ==> W(block, t) == FromBigEndian(block[4 * t..4 * t + 4])
    ensures t >= 16 ==>
      W(block, t) == (SmallSigma1(W(block, t - 2)) + W(block, t - 7) + SmallSigma0(W(block, t - 15)) + W(block, t - 16)) % 0x1_0000_0000
  {
    hide SmallSigma0, SmallSigma1, W, Add;
    if t < 16 {
      WordIs(block, t);
    } else {
      ScheduleStep(block, t);
      FourSum(SmallSigma1(W(block, t - 2)), W(block, t - 7), SmallSigma0(W(block, t - 15)), W(block, t - 16));
    }
  }

  lemma ScheduleStep(block: seq<byte>, t: nat)
    requires |block| == 64 && t >= 16
    ensures W(block, t) ==
      Add(Add(Add(SmallSigma1(W(block, t - 2)), W(block, t - 7)), SmallSigma0(W(block, t - 15))), W(block, t - 16))
  {
    hide SmallSigma0, SmallSigma1, Add;
  }

  /** Adding on to a sum modulo 2^32. */
  lemma AddMore(x: nat, s: uint32, y: uint32)
    requires s == x % 0x1_0000_0000
    ensures Add(s, y) == (x + y) % 0x1_0000_0000
  {
  }

  lemma FourSum(a: uint32, b: uint32, c: uint32, d: uint32)
    ensures Add(Add(Add(a, b), c), d) == (a + b + c + d) % 0x1_0000_0000
  {
    hide Add;
    AddMore(a, a, b);
    AddMore(a + b, Add(a, b), c);
    AddMore(a + b + c, Add(Add(a, b), c), d);
  }

  lemma WordIs(block: seq<byte>, t: nat)
    requires |block| == 64 && t < 16
    ensures W(block, t) == FromBigEndian(block[4 * t..4 * t + 4])
  {
    var s := block[4 * t..4 * t + 4];
    assert s[..3][..2][..1][..0] == [] && s[..3][..2] == s[..2] && s[..2][..1] == s[..1];
    assert FromBigEndian(s[..1]) == s[0];
    var a: int, b: int, c: int := s[0], s[1], s[2];
    assert FromBigEndian(s[..2]) == a * 0x100 + b;
    assert FromBigEndian(s[..3]) == (a * 0x100 + b) * 0x100 + c;
  }

  /** The eight working variables before round t, section 6.2.2, step 3. */
  function Variables(h: seq<uint32>, block: seq<byte>, t: nat): (v: seq<uint32>)
    requires |h| == 8 && |block| == 64 && t <= 64
    ensures |v| == 8
  {
    [A(h, block, t), A(h, block, t - 1), A(h, block, t - 2), A(h, block, t - 3),
     E(h, block, t), E(h, block, t - 1), E(h, block, t - 2), E(h, block, t - 3)]
  }

  /** One round: the hash value first, then a and e anew and the others one further. */
  lemma RoundSum(h: seq<uint32>, block: seq<byte>, t: nat)
    requires |h| == 8 && |block| == 64 && t < 64
    ensures Variables(h, block, 0) == h
    ensures var v, r := Variables(h, block, t), Variables(h, block, t + 1);
            var t1 := v[7] + BigSigma1(v[4]) + Ch(v[4], v[5], v[6]) + K(t) + W(block, t);
            var t2 := BigSigma0(v[0]) + Maj(v[0], v[1], v[2]);
            && r[0] == (t1 + t2) % 0x1_0000_0000 && r[4] == (v[3] + t1) % 0x1_0000_0000
            && r[1..4] == v[0..3] && r[5..8] == v[4..7]
  {
    hide W, K, BigSigma0, BigSigma1, Ch, Maj, A, E, Mix, T2, Add;
    OneRound(h, block, t);
    var v, r := Variables(h, block, t), Variables(h, block, t + 1);
    RoundSums(v[0], v[1], v[2], v[3], v[4], v[5], v[6], v[7], K(t), W(block, t));
    assert r[1] == v[0] && r[2] == v[1] && r[3] == v[2] && r[5] == v[4] && r[6] == v[5] && r[7] == v[6];
  }

  lemma RoundSums(a: uint32, b: uint32, c: uint32, d: uint32, e: uint32, f: uint32, g: uint32, i: uint32, k: uint32, w: uint32)
    ensures var t1 := i + BigSigma1(e) + Ch(e, f, g) + k + w;
            && Add(Mix(e, f, g, i, k, w), T2(a, b, c)) == (t1 + (BigSigma0(a) + Maj(a, b, c))) % 0x1_0000_0000
            && Add(d, Mix(e, f, g, i, k, w)) == (d + t1) % 0x1_0000_0000
  {
    hide BigSigma0, BigSigma1, Ch, Maj, Mix;
    MixSum(e, f, g, i, k, w);
    var t1: nat, t2: nat := i + BigSigma1(e) + Ch(e, f, g) + k + w, BigSigma0(a) + Maj(a, b, c);
    ModAdd(t1, d);
    ModAdd(t1, t2 % 0x1_0000_0000);
    ModAdd(t2, t1);
  }

  lemma MixSum(e: uint32, f: uint32, g: uint32, i: uint32, k: uint32, w: uint32)
    ensures Mix(e, f, g, i, k, w) == (i + BigSigma1(e) + Ch(e, f, g) + k + w) % 0x1_0000_0000
  {
    hide BigSigma1, Ch, Add;
    var s1, ch := BigSigma1(e), Ch(e, f, g);
    FourSum(i, s1, ch, k);
    AddMore(i + s1 + ch + k, Add(Add(Add(i, s1), ch), k), w);
  }

  lemma ModAdd(x: nat, y: nat)
    ensures (x % 0x1_0000_0000 + y) % 0x1_0000_0000 == (x + y) % 0x1_0000_0000
  {
  }

  lemma OneRound(h: seq<uint32>, block: seq<byte>, t: nat)
    requires |h| == 8 && |block| == 64 && t < 64
    ensures var t1 := Mix(E(h, block, t), E(h, block, t - 1), E(h, block, t - 2), E(h, block, t - 3), K(t), W(block, t));
            && A(h, block, t + 1) == Add(t1, T2(A(h, block, t), A(h, block, t - 1), A(h, block, t - 2)))
            && E(h, block, t + 1) == Add(A(h, block, t - 3), t1)
    ensures A(h, block, 0) == h[0] && A(h, block, -1) == h[1] && A(h, block, -2) == h[2] && A(h, block, -3) == h[3]
    ensures E(h, block, 0) == h[4] && E(h, block, -1) == h[5] && E(h, block, -2) == h[6] && E(h, block, -3) == h[7]
  {
    hide Mix, T2, W, K;
  }

  /** The next hash value adds the variables after the last round. */
  lemma HashSum(h: seq<uint32>, block: seq<byte>, i: nat)
    requires |h| == 8 && |block| == 64 && i < 8
    ensures i < 4 ==> Compress(h, block)[i] == (h[i] + A(h, block, 64 - i)) % 0x1_0000_0000
    ensures i >= 4 ==> Compress(h, block)[i] == (h[i] + E(h, block, 64 - (i - 4))) % 0x1_0000_0000
  {
    hide A, E;
  }

  // ----- constants -----

  /** The first 32 bits of the fractional part of the cube root of p, whose whole part is c. */
  predicate CubeRoot(k: uint32, p: nat, c: nat) {
    var r := c * 0x1_0000_0000 + k;
    r * r * r <= p * 0x1_0000_0000 * 0x1_0000_0000 * 0x1_0000_0000 < (r + 1) * (r + 1) * (r + 1)
  }

  /** The same for the square root. */
  predicate SquareRoot(k: uint32, p: nat, c: nat) {
    var r := c * 0x1_0000_0000 + k;
    r * r <= p * 0x1_0000_0000 * 0x1_0000_0000 < (r + 1) * (r + 1)
  }

  /** The initial hash value: the square roots of the first eight primes. */
  lemma InitialRoots()
    ensures SquareRoot(INITIAL[0], 2, 1) && SquareRoot(INITIAL[1], 3, 1)
    ensures SquareRoot(INITIAL[2], 5, 2) && SquareRoot(INITIAL[3], 7, 2)
    ensures SquareRoot(INITIAL[4], 11, 3) && SquareRoot(INITIAL[5], 13, 3)
    ensures SquareRoot(INITIAL[6], 17, 4) && SquareRoot(INITIAL[7], 19, 4)
  {
  }

  /** The round constants: the cube roots of the first 64 primes. */
  lemma RoundConstantRoots0()
    ensures CubeRoot(K(0), 2, 1) && CubeRoot(K(1), 3, 1)
    ensures CubeRoot(K(2), 5, 1) && CubeRoot(K(3), 7, 1)
  {
  }

  lemma RoundConstantRoots1()
    ensures CubeRoot(K(4), 11, 2) && CubeRoot(K(5), 13, 2)
    ensures CubeRoot(K(6), 17, 2) && CubeRoot(K(7), 19, 2)
  {
  }

  lemma RoundConstantRoots2()
    ensures CubeRoot(K(8), 23, 2) && CubeRoot(K(9), 29, 3)
    ensures CubeRoot(K(10), 31, 3) && CubeRoot(K(11), 37, 3)
  {
  }

  lemma RoundConstantRoots3()
    ensures CubeRoot(K(12), 41, 3) && CubeRoot(K(13), 43, 3)
    ensures CubeRoot(K(14), 47, 3) && CubeRoot(K(15), 53, 3)
  {
  }

  lemma RoundConstantRoots4()
    ensures CubeRoot(K(16), 59, 3) && CubeRoot(K(17), 61, 3)
    ensures CubeRoot(K(18), 67, 4) && CubeRoot(K(19), 71, 4)
  {
  }

  lemma RoundConstantRoots5()
    ensures CubeRoot(K(20), 73, 4) && CubeRoot(K(21), 79, 4)
    ensures CubeRoot(K(22), 83, 4) && CubeRoot(K(23), 89, 4)
  {
  }

  lemma RoundConstantRoots6()
    ensures CubeRoot(K(24), 97, 4) && CubeRoot(K(25), 101, 4)
    ensures CubeRoot(K(26), 103, 4) && CubeRoot(K(27), 107, 4)
  {
  }

  lemma RoundConstantRoots7()
    ensures CubeRoot(K(28), 109, 4) && CubeRoot(K(29), 113, 4)
    ensures CubeRoot(K(30), 127, 5) && CubeRoot(K(31), 131, 5)
  {
  }

  lemma RoundConstantRoots8()
    ensures CubeRoot(K(32), 137, 5) && CubeRoot(K(33), 139, 5)
    ensures CubeRoot(K(34), 149, 5) && CubeRoot(K(35), 151, 5)
  {
  }

  lemma RoundConstantRoots9()
    ensures CubeRoot(K(36), 157, 5) && CubeRoot(K(37), 163, 5)
    ensures CubeRoot(K(38), 167, 5) && CubeRoot(K(39), 173, 5)
  {
  }

  lemma RoundConstantRoots10()
    ensures CubeRoot(K(40), 179, 5) && CubeRoot(K(41), 181, 5)
    ensures CubeRoot(K(42), 191, 5) && CubeRoot(K(43), 193, 5)
  {
  }

  lemma RoundConstantRoots11()
    ensures CubeRoot(K(44), 197, 5) && CubeRoot(K(45), 199, 5)
    ensures CubeRoot(K(46), 211, 5) && CubeRoot(K(47), 223, 6)
  {
  }

  lemma RoundConstantRoots12()
    ensures CubeRoot(K(48), 227, 6) && CubeRoot(K(49), 229, 6)
    ensures CubeRoot(K(50), 233, 6) && CubeRoot(K(51), 239, 6)
  {
  }

  lemma RoundConstantRoots13()
    ensures CubeRoot(K(52), 241, 6) && CubeRoot(K(53), 251, 6)
    ensures CubeRoot(K(54), 257, 6) && CubeRoot(K(55), 263, 6)
  {
  }

  lemma RoundConstantRoots14()
    ensures CubeRoot(K(56), 269, 6) && CubeRoot(K(57), 271, 6)
    ensures CubeRoot(K(58), 277, 6) && CubeRoot(K(59), 281, 6)
  {
  }

  lemma RoundConstantRoots15()
    ensures CubeRoot(K(60), 283, 6) && CubeRoot(K(61), 293, 6)
    ensures CubeRoot(K(62), 307, 6) && CubeRoot(K(63), 311, 6)
  {
  }
}
