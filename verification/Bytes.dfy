/**
  Little-endian scalars, and the vocabulary for talking about a piece of a buffer.
 */
module Bytes {
  import opened Ast
  import opened Wrappers

  const U32: nat := 0x1_0000_0000
  const U64: nat := 0x1_0000_0000_0000_0000

  /** 256 to the power of w. */
  function Span(w: nat): (r: nat)
    ensures r >= 1
  {
    if w == 0 then 1 else 256 * Span(w - 1)
  }

  /** The low w bytes of n, least significant first (a cast to a w-byte unsigned integer). */
  function LittleEndian(w: nat, n: nat): (r: seq<byte>)
    ensures |r| == w
  {
    if w == 0 then [] else [n % 256] + LittleEndian(w - 1, n / 256)
  }

  function FromLittleEndian(bs: seq<byte>): (n: nat)
    ensures n < Span(|bs|)
  {
    if bs == [] then 0 else bs[0] + 256 * FromLittleEndian(bs[1..])
  }

  /** What fits the width survives a store and a load. */
  lemma {:induction false} LoadStore(w: nat, n: nat)
    requires n < Span(w)
    ensures FromLittleEndian(LittleEndian(w, n)) == n
  {
    if w > 0 {
      LoadStore(w - 1, n / 256);
      assert LittleEndian(w, n)[1..] == LittleEndian(w - 1, n / 256);
    }
  }

  lemma Spans()
    ensures Span(1) == 0x100
    ensures Span(2) == 0x1_0000
    ensures Span(4) == 0x1_0000_0000
    ensures Span(8) == 0x1_0000_0000_0000_0000
  {
    assert Span(3) == 0x100_0000;
    assert Span(4) == 0x1_0000_0000;
    assert Span(5) == 0x100_0000_0000;
    assert Span(6) == 0x1_0000_0000_0000;
    assert Span(7) == 0x100_0000_0000_0000;
  }

  /** The elements `piece` stand in `buf` at `off`. */
  function At<T(==)>(buf: seq<T>, off: nat, piece: seq<T>): (b: bool)
    ensures b ==> off + |piece| <= |buf|
  {
    off + |piece| <= |buf| && buf[off..off + |piece|] == piece
  }

  lemma AtConcat<T>(buf: seq<T>, off: nat, a: seq<T>, b: seq<T>)
    ensures At(buf, off, a + b) <==> At(buf, off, a) && At(buf, off + |a|, b)
  {
    if off + |a| + |b| <= |buf| {
      var whole := buf[off..off + |a| + |b|];
      assert whole == buf[off..off + |a|] + buf[off + |a|..off + |a| + |b|];
      assert whole[..|a|] == buf[off..off + |a|] && whole[|a|..] == buf[off + |a|..off + |a| + |b|];
      assert (a + b)[..|a|] == a && (a + b)[|a|..] == b;
    }
  }

  /** A scalar of width w at `off`, or None when the payload is too short. */
  function Load(w: nat, buf: seq<byte>, off: nat): Option<nat> {
    if off + w > |buf| then None else Some(FromLittleEndian(buf[off..off + w]))
  }

  lemma LoadAt(w: nat, n: nat, buf: seq<byte>, off: nat)
    requires At(buf, off, LittleEndian(w, n))
    requires n < Span(w)
    ensures Load(w, buf, off) == Some(n)
  {
    hide LittleEndian, FromLittleEndian, Span;
    LoadStore(w, n);
  }
}
