/** The JavaScript number operations that the browser codecs use. */
module JsNumbers {
  import opened Bytes

  const TWO31: int := 0x8000_0000
  const TWO32: int := 0x1_0000_0000
  const TWO53: int := 0x20_0000_0000_0000

  function Pow2(k: nat): (p: nat)
    ensures p > 0
  {
    if k == 0 then 1 else 2 * Pow2(k - 1)
  }

  function ToUint32(x: int): (u: nat)
    ensures u < TWO32
  {
    x % TWO32
  }

  function ToInt32(x: int): (i: int)
    ensures -TWO31 <= i < TWO31
  {
    var u := x % TWO32;
    if u < TWO31 then u else u - TWO32
  }

  /** x | y and x & y of unsigned words, bit by bit. */
  function OrBits(x: nat, y: nat): nat
    decreases x + y
  {
    if x == 0 && y == 0 then 0 else (if x % 2 == 1 || y % 2 == 1 then 1 else 0) + 2 * OrBits(x / 2, y / 2)
  }

  function AndBits(x: nat, y: nat): nat
    decreases x
  {
    if x == 0 then 0 else (if x % 2 == 1 && y % 2 == 1 then 1 else 0) + 2 * AndBits(x / 2, y / 2)
  }

  function Or(x: int, y: int): int { ToInt32(OrBits(ToUint32(x), ToUint32(y))) }

  function And(x: int, y: int): int { ToInt32(AndBits(ToUint32(x), ToUint32(y))) }

  /** x << k and x >> k, given 2^k; `>>` keeps the sign, so it divides rounding down. */
  function Shl(x: int, unit: nat): int { ToInt32(ToInt32(x) * unit) }

  function Shr(x: int, unit: nat): int
    requires unit > 0
  {
    ToInt32(x) / unit
  }

  predicate IsByteShift(unit: nat) {
    unit == 0x100 || unit == 0x1_0000 || unit == 0x100_0000
  }

  lemma {:induction false} OrBitsZero(x: nat)
    ensures OrBits(x, 0) == x
  {
    if x > 0 { OrBitsZero(x / 2); }
  }

  /** Where no bit is set on both sides, "or" adds. */
  lemma {:induction false} OrBitsDisjoint(hi: nat, lo: nat, k: nat)
    requires lo < Pow2(k)
    ensures OrBits(hi * Pow2(k), lo) == hi * Pow2(k) + lo
  {
    if k == 0 {
      OrBitsZero(hi);
    } else {
      var half := hi * Pow2(k - 1);
      assert hi * Pow2(k) == 2 * half by {
        assert Pow2(k) == 2 * Pow2(k - 1);
        assert hi * (2 * Pow2(k - 1)) == 2 * (hi * Pow2(k - 1));
      }
      OrBitsDisjoint(hi, lo / 2, k - 1);
    }
  }

  lemma {:induction false} AndBitsMask(x: nat, k: nat, p: nat)
    requires p == Pow2(k)
    ensures AndBits(x, p - 1) == x % p
  {
    if k == 0 {
      AndBitsNone(x);
    } else if x > 0 {
      AndBitsMask(x / 2, k - 1, p / 2);
      AndBitsStep(x, p / 2);
      ModOfHalf(x, p / 2);
    } else {
      assert AndBits(x, p - 1) == 0;
    }
  }

  lemma AndBitsStep(x: nat, p: nat)
    requires x > 0 && p > 0
    ensures AndBits(x, 2 * p - 1) == x % 2 + 2 * AndBits(x / 2, p - 1)
  {
    assert (2 * p - 1) / 2 == p - 1 && (2 * p - 1) % 2 == 1;
  }

  lemma {:induction false} AndBitsNone(x: nat)
    ensures AndBits(x, 0) == 0
  {
    if x > 0 { AndBitsNone(x / 2); }
  }

  lemma ModOfHalf(x: nat, p: nat)
    requires p > 0
    ensures x % (2 * p) == x % 2 + 2 * (x / 2 % p)
  {
    var h := x / 2;
    var q, r := h / p, h % p;
    assert h == p * q + r;
    var low := x % 2 + 2 * r;
    assert x == (2 * p) * q + low by { assert 2 * (p * q) == (2 * p) * q; }
    DivModUnique(x, 2 * p, q, low);
  }

  lemma DivModUnique(x: int, d: int, q: int, r: int)
    requires d > 0 && 0 <= r < d && x == d * q + r
    ensures x / d == q && x % d == r
  {
    var q', r' := x / d, x % d;
    assert d * q + r == d * q' + r';
    if q > q' {
      MultipleAtLeast(d, q, q');
    } else if q < q' {
      MultipleAtLeast(d, q', q);
    }
  }

  lemma MultipleAtLeast(d: int, a: int, b: int)
    requires d > 0 && a > b
    ensures d * a >= d * b + d
  {
    assert d * (a - b - 1) >= 0;
    assert d * (a - b - 1) == d * a - d * b - d;
  }

  lemma Pow2Values()
    ensures Pow2(8) == 0x100 && Pow2(16) == 0x1_0000 && Pow2(24) == 0x100_0000 && Pow2(32) == 0x1_0000_0000
  {
    assert Pow2(4) == 16;
    assert Pow2(12) == 0x1000;
    assert Pow2(20) == 0x10_0000;
    assert Pow2(28) == 0x1000_0000;
  }

  /** (b0<<24)|(b1<<16)|(b2<<8)|b3 */
  function ShiftOr(b0: Byte, b1: Byte, b2: Byte, b3: Byte): int {
    Or(Or(Or(Shl(b0, 0x100_0000), Shl(b1, 0x1_0000)), Shl(b2, 0x100)), b3)
  }

  lemma WordRoundTrip(u: nat)
    requires u < TWO32
    ensures ToUint32(ToInt32(u)) == u && ToUint32(u) == u
  {
    if u >= TWO31 {
      DivModUnique(u - TWO32, TWO32, -1, u);
    }
  }

  /** One "or" of a word whose low `k` bits are clear with a value of `k` bits. */
  lemma OrDisjoint(word: nat, hi: nat, lo: nat, k: nat)
    requires word == hi * Pow2(k) && lo < Pow2(k) && word + lo < TWO32
    ensures Or(ToInt32(word), ToInt32(lo)) == ToInt32(word + lo)
  {
    WordRoundTrip(word);
    WordRoundTrip(lo);
    OrBitsDisjoint(hi, lo, k);
  }

  lemma OrOfBytes(b0: nat, b1: nat, b2: nat, b3: nat)
    requires b0 < 256 && b1 < 256 && b2 < 256 && b3 < 256
    ensures Or(Or(Or(ToInt32(b0 * 0x100_0000), ToInt32(b1 * 0x1_0000)), ToInt32(b2 * 0x100)), ToInt32(b3))
         == ToInt32(b0 * 0x100_0000 + b1 * 0x1_0000 + b2 * 0x100 + b3)
  {
    Pow2Values();
    var w0, w1, w2 := b0 * 0x100_0000, b1 * 0x1_0000, b2 * 0x100;
    OrDisjoint(w0, b0, w1, 24);
    OrDisjoint(w0 + w1, b0 * 0x100 + b1, w2, 16);
    OrDisjoint(w0 + w1 + w2, (b0 * 0x100 + b1) * 0x100 + b2, b3, 8);
  }

  lemma OrOfWords(b0: nat, b1: nat, b2: nat, b3: nat, s0: int, s1: int, s2: int, s3: int)
    requires b0 < 256 && b1 < 256 && b2 < 256 && b3 < 256
    requires s0 == ToInt32(b0 * 0x100_0000) && s1 == ToInt32(b1 * 0x1_0000)
    requires s2 == ToInt32(b2 * 0x100) && s3 == ToInt32(b3)
    ensures Or(Or(Or(s0, s1), s2), s3) == ToInt32(b0 * 0x100_0000 + b1 * 0x1_0000 + b2 * 0x100 + b3)
  {
    OrOfBytes(b0, b1, b2, b3);
  }

  lemma ShiftedInto(b: nat, unit: nat)
    requires b < 256 && IsByteShift(unit)
    ensures Shl(b, unit) == ToInt32(b * unit)
  {
    assert ToInt32(b) == b;
    hide ToInt32;
  }

  lemma ShiftOrValue(b0: nat, b1: nat, b2: nat, b3: nat)
    requires b0 < 256 && b1 < 256 && b2 < 256 && b3 < 256
    ensures ShiftOr(b0, b1, b2, b3) == ToInt32(b0 * 0x100_0000 + b1 * 0x1_0000 + b2 * 0x100 + b3)
  {
    ShiftedInto(b0, 0x100_0000);
    ShiftedInto(b1, 0x1_0000);
    ShiftedInto(b2, 0x100);
    assert ToInt32(b3) == b3;
    OrOfWords(b0, b1, b2, b3, Shl(b0, 0x100_0000), Shl(b1, 0x1_0000), Shl(b2, 0x100), b3);
  }

  /** The shift-and-or idiom reads a big-endian word, as a signed one. */
  lemma ShiftOrIsBigEndian(b: seq<Byte>)
    requires |b| == 4
    ensures ShiftOr(b[0], b[1], b[2], b[3]) == ToInt32(FromBE(b))
  {
    ShiftOrValue(b[0], b[1], b[2], b[3]);
    WordValue(b);
  }

  method ReadInt32(data: seq<Byte>, o: nat) returns (n: int)
    requires o + 4 <= |data|
    ensures n == ToInt32(FromBE(data[o..o + 4]))
  {
    var b := data[o..o + 4];
    ShiftOrIsBigEndian(b);
    n := ShiftOr(b[0], b[1], b[2], b[3]);
  }

  lemma WordValue(b: seq<Byte>)
    requires |b| == 4
    ensures FromBE(b) == 256 * (256 * (256 * FromBE(b[..1]) + b[1]) + b[2]) + b[3] && FromBE(b[..1]) == b[0]
  {
    assert b[..3][..2] == b[..2];
    assert b[..2][..1] == b[..1];
    assert b[..1][..0] == [];
    assert FromBE(b[..2]) == 256 * FromBE(b[..1]) + b[1];
    assert FromBE(b[..3]) == 256 * FromBE(b[..2]) + b[2];
  }

  /** [(n>>24)&0xff, (n>>16)&0xff, (n>>8)&0xff, n&0xff] */
  function ShiftMask(n: nat): seq<int> {
    [And(Shr(n, 0x100_0000), 0xff), And(Shr(n, 0x1_0000), 0xff), And(Shr(n, 0x100), 0xff), And(n, 0xff)]
  }

  lemma MaskByte(x: int)
    ensures And(x, 0xff) == ToUint32(x) % 0x100
  {
    var u, mask := ToUint32(x), Pow2(8) - 1;
    Pow2Values();
    assert mask == 0xff == ToUint32(0xff);
    AndBitsMask(u, 8, 0x100);
    assert AndBits(u, mask) == u % 0x100;
  }

  lemma LowByteOfWord(v: int)
    ensures ToUint32(v) % 0x100 == v % 0x100
  {
    var q, r := v / TWO32, v % TWO32;
    assert v == 0x100 * (0x100_0000 * q + r / 0x100) + r % 0x100;
    DivModUnique(v, 0x100, 0x100_0000 * q + r / 0x100, r % 0x100);
  }

  lemma ShiftedByte(n: nat, unit: nat)
    requires IsByteShift(unit)
    ensures And(Shr(n, unit), 0xff) == n % TWO32 / unit % 0x100
  {
    MaskByte(Shr(n, unit));
    LowByteOfWord(Shr(n, unit));
    var u := n % TWO32;
    if u >= TWO31 {
      SignedShift(u, unit);
    }
  }

  lemma SignedShift(u: nat, unit: nat)
    requires IsByteShift(unit)
    ensures (u - TWO32) / unit % 0x100 == u / unit % 0x100
  {
    var q, r := u / unit, u % unit;
    var high := if unit == 0x100 then 0x1_0000 else if unit == 0x1_0000 then 0x100 else 1;
    assert u - TWO32 == unit * (q - 0x100 * high) + r;
    DivModUnique(u - TWO32, unit, q - 0x100 * high, r);
    DivModUnique(q - 0x100 * high, 0x100, q / 0x100 - high, q % 0x100);
  }

  /** The shift-and-mask idiom writes the low word big-endian, whatever the length. */
  lemma ShiftMaskIsBigEndian(n: nat)
    ensures ShiftMask(n) == ToBE(n % TWO32, 4)
  {
    ShiftedByte(n, 0x100_0000);
    ShiftedByte(n, 0x1_0000);
    ShiftedByte(n, 0x100);
    MaskByte(n);
    WordBytes(n % TWO32);
  }

  // ---- Doubles ----

  /** How many low bits of `n` a double drops. */
  function DroppedBits(n: nat): (k: nat)
    ensures n / Pow2(k) < TWO53
    ensures n >= TWO53 ==> k > 0 && n / Pow2(k) >= TWO53 / 2
  {
    if n < TWO53 then 0
    else
      var k := DroppedBits(n / 2);
      HalvePow2(n, k);
      k + 1
  }

  lemma HalvePow2(n: nat, k: nat)
    ensures n / Pow2(k + 1) == n / 2 / Pow2(k)
  {
    var p := Pow2(k);
    var h := n / 2;
    var q, r := h / p, h % p;
    assert h == p * q + r;
    assert n == (2 * p) * q + (n % 2 + 2 * r) by { assert 2 * (p * q) == (2 * p) * q; }
    DivModUnique(n, 2 * p, q, n % 2 + 2 * r);
  }

  /** `Number(n)` of a non-negative integer: the nearest double, ties to even. Exact below 2^53. */
  function Number(n: nat): (d: nat)
    ensures n < TWO53 ==> d == n
    ensures n >= TWO53 ==> d >= TWO53
  {
    if n < TWO53 then n
    else
      var unit := Pow2(DroppedBits(n));
      var q, r := n / unit, n % unit;
      var up := 2 * r > unit || (2 * r == unit && q % 2 == 1);
      var rounded := if up then q + 1 else q;
      assert rounded * unit >= TWO53 by {
        assert unit == 2 * Pow2(DroppedBits(n) - 1) && rounded >= TWO53 / 2;
        ProductAtLeast(rounded, unit, TWO53 / 2, 2);
      }
      rounded * unit
  }

  /** Above 2^53 it is a nearest multiple of the dropped power of two, and of two such the one with an even quotient. */
  lemma NumberIsNearest(n: nat) returns (unit: nat, q: nat)
    requires n >= TWO53
    ensures unit == Pow2(DroppedBits(n)) && TWO53 / 2 <= n / unit < TWO53
    ensures Number(n) == q * unit && -(unit as int) <= 2 * (q * unit - n) <= unit
    ensures 2 * (q * unit - n) == unit || 2 * (n - q * unit) == unit ==> q % 2 == 0
  {
    unit := Pow2(DroppedBits(n));
    var low, r := n / unit, n % unit;
    assert n == low * unit + r;
    q := if 2 * r > unit || (2 * r == unit && low % 2 == 1) then low + 1 else low;
    NextMultiple(low, unit, q);
    hide Pow2, DroppedBits;
  }

  lemma NextMultiple(low: nat, unit: nat, q: nat)
    requires q == low || q == low + 1
    ensures q * unit == if q == low then low * unit else low * unit + unit
  {
  }

  lemma ProductAtLeast(a: nat, b: nat, m: nat, k: nat)
    requires a >= m && b >= k
    ensures a * b >= m * k
  {
    assert a * b >= m * b;
    assert m * b >= m * k;
  }
}
