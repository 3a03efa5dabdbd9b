/** Bytes and unsigned big-endian integers made of them, and what else the other modules share. */
module Bytes {

  type Byte = x: int | 0 <= x < 256

  datatype Option<+T> = None | Some(value: T)

  datatype Result<+T, +E> = Ok(value: T) | Err(error: E)

  /** The big-endian value of a byte string. */
  function FromBE(b: seq<Byte>): (v: nat)
    ensures v < Pow256(|b|)
  {
    if b == [] then 0 else 256 * FromBE(b[..|b| - 1]) + b[|b| - 1]
  }

  /** The `width` low-order bytes of `v`, most significant first. */
  function ToBE(v: nat, width: nat): (b: seq<Byte>)
    ensures |b| == width
  {
    if width == 0 then [] else ToBE(v / 256, width - 1) + [v % 256]
  }

  function Pow256(n: nat): (p: nat)
    ensures p > 0
  {
    if n == 0 then 1 else 256 * Pow256(n - 1)
  }

  lemma {:induction false} FromToBE(v: nat, width: nat)
    requires v < Pow256(width)
    ensures FromBE(ToBE(v, width)) == v
  {
    if width > 0 {
      FromToBE(v / 256, width - 1);
      assert ToBE(v, width)[..width - 1] == ToBE(v / 256, width - 1);
    }
  }

  lemma {:induction false} ToFromBE(b: seq<Byte>)
    ensures ToBE(FromBE(b), |b|) == b
  {
    if b != [] {
      var front := b[..|b| - 1];
      ToFromBE(front);
      assert FromBE(b) / 256 == FromBE(front) && FromBE(b) % 256 == b[|b| - 1];
      assert front + [b[|b| - 1]] == b;
    }
  }

  lemma WordBytes(u: nat)
    ensures ToBE(u, 4) == [u / 0x100_0000 % 0x100, u / 0x1_0000 % 0x100, u / 0x100 % 0x100, u % 0x100]
  {
    var u1, u2, u3 := u / 0x100, u / 0x1_0000, u / 0x100_0000;
    assert u1 / 0x100 == u2 && u2 / 0x100 == u3;
    assert ToBE(u3, 1) == [u3 % 0x100];
    assert ToBE(u2, 2) == [u3 % 0x100, u2 % 0x100];
    assert ToBE(u1, 3) == [u3 % 0x100, u2 % 0x100, u1 % 0x100];
  }

  lemma Pow256Values()
    ensures Pow256(4) == 0x1_0000_0000 && Pow256(8) == 0x1_0000_0000_0000_0000
  {
    assert Pow256(2) == 0x1_0000;
    assert Pow256(4) == 0x1_0000_0000;
    assert Pow256(6) == 0x1_0000_0000_0000;
  }

  lemma Assoc<T>(a: seq<T>, b: seq<T>, c: seq<T>)
    ensures a + b + c == a + (b + c)
  {
  }

  lemma SliceMiddle<T>(a: seq<T>, b: seq<T>, c: seq<T>)
    ensures (a + b + c)[|a|..|a| + |b|] == b && (a + b + c)[|a| + |b|..] == c
  {
  }
}
