/** Bytes, byte orders and the bitwise operators the source uses on non-negative integers. */
module Bytes {

  type Byte = b: int | 0 <= b < 256

  datatype Order = Little | Big

  /** Reads a whole byte string as one unsigned integer in the given order. */
  function FromBytes(order: Order, s: seq<Byte>): (n: nat)
    decreases |s|
  {
    if s == [] then 0
    else match order
      case Big => 256 * FromBytes(order, s[..|s| - 1]) + s[|s| - 1]
      case Little => s[0] + 256 * FromBytes(order, s[1..])
  }

  // What one, two and four bytes read as.

  function Half(high: Byte, low: Byte): nat {
    0x100 * high + low
  }

  function Word(b3: Byte, b2: Byte, b1: Byte, b0: Byte): nat {
    0x100_0000 * b3 + 0x1_0000 * b2 + 0x100 * b1 + b0
  }

  lemma Big1(a: Byte)
    ensures FromBytes(Big, [a]) == a
  {
    assert [a][..0] == [];
  }

  lemma Big2(a: Byte, b: Byte)
    ensures FromBytes(Big, [a, b]) == Half(a, b)
  {
    assert [a, b][..1] == [a];
    Big1(a);
  }

  lemma Big3(a: Byte, b: Byte, c: Byte)
    ensures FromBytes(Big, [a, b, c]) == 0x100 * Half(a, b) + c
  {
    assert [a, b, c][..2] == [a, b];
    Big2(a, b);
  }

  lemma Big4(a: Byte, b: Byte, c: Byte, d: Byte)
    ensures FromBytes(Big, [a, b, c, d]) == Word(a, b, c, d)
  {
    assert [a, b, c, d][..3] == [a, b, c];
    Big3(a, b, c);
  }

  lemma Little1(a: Byte)
    ensures FromBytes(Little, [a]) == a
  {
    assert [a][1..] == [];
  }

  lemma Little2(a: Byte, b: Byte)
    ensures FromBytes(Little, [a, b]) == Half(b, a)
  {
    assert [a, b][1..] == [b];
    Little1(b);
  }

  lemma Little3(a: Byte, b: Byte, c: Byte)
    ensures FromBytes(Little, [a, b, c]) == a + 0x100 * Half(c, b)
  {
    assert [a, b, c][1..] == [b, c];
    Little2(b, c);
  }

  lemma Little4(a: Byte, b: Byte, c: Byte, d: Byte)
    ensures FromBytes(Little, [a, b, c, d]) == Word(d, c, b, a)
  {
    assert [a, b, c, d][1..] == [b, c, d];
    Little3(b, c, d);
  }

  /** Writes an unsigned integer in `width` bytes. */
  function ToBytes(order: Order, n: nat, width: nat): (s: seq<Byte>)
    ensures |s| == width
    decreases width, n
  {
    if width == 0 then []
    else match order
      case Big => ToBytes(Big, n / 256, width - 1) + [n % 256]
      case Little => [n % 256] + ToBytes(Little, n / 256, width - 1)
  }

  function Pow256(n: nat): nat {
    if n == 0 then 1 else 256 * Pow256(n - 1)
  }

  lemma Widths()
    ensures Pow256(1) == 0x100 && Pow256(2) == 0x1_0000 && Pow256(4) == 0x1_0000_0000
  {
    assert Pow256(2) == 256 * Pow256(1);
    assert Pow256(4) == 256 * Pow256(3);
  }

  /** What is written in enough bytes reads back, in either order. */
  lemma {:induction false} ReadsBack(order: Order, n: nat, width: nat)
    requires n < Pow256(width)
    ensures FromBytes(order, ToBytes(order, n, width)) == n
  {
    if width > 0 {
      ReadsBack(order, n / 256, width - 1);
      var s := ToBytes(order, n, width);
      match order
      case Big => assert s[..|s| - 1] == ToBytes(Big, n / 256, width - 1);
      case Little => assert s[1..] == ToBytes(Little, n / 256, width - 1);
    }
  }

  /** Bitwise AND of two non-negative integers, bit by bit from the low end. */
  function BitAnd(a: nat, b: nat): nat {
    if a == 0 || b == 0 then 0
    else 2 * BitAnd(a / 2, b / 2) + (if a % 2 == 1 && b % 2 == 1 then 1 else 0)
  }

  /** Bitwise OR of two non-negative integers. */
  function BitOr(a: nat, b: nat): nat {
    if a == 0 then b
    else if b == 0 then a
    else 2 * BitOr(a / 2, b / 2) + (if a % 2 == 1 || b % 2 == 1 then 1 else 0)
  }

  // The bits of the two.

  /** Bit `i` of a number, counted from the low end. */
  predicate Bit(n: nat, i: nat)
    decreases i
  {
    if i == 0 then n % 2 == 1 else Bit(n / 2, i - 1)
  }

  lemma {:induction false} AndBits(a: nat, b: nat, i: nat)
    ensures Bit(BitAnd(a, b), i) <==> Bit(a, i) && Bit(b, i)
    decreases i
  {
    NoBits(i);
    if a != 0 && b != 0 && i > 0 {
      assert BitAnd(a, b) / 2 == BitAnd(a / 2, b / 2);
      AndBits(a / 2, b / 2, i - 1);
    }
  }

  lemma {:induction false} OrBits(a: nat, b: nat, i: nat)
    ensures Bit(BitOr(a, b), i) <==> Bit(a, i) || Bit(b, i)
    decreases i
  {
    NoBits(i);
    if a != 0 && b != 0 && i > 0 {
      assert BitOr(a, b) / 2 == BitOr(a / 2, b / 2);
      OrBits(a / 2, b / 2, i - 1);
    }
  }

  lemma {:induction false} NoBits(i: nat)
    ensures !Bit(0, i)
    decreases i
  {
    if i > 0 {
      NoBits(i - 1);
    }
  }

  lemma {:induction false} SomeBit(n: nat) returns (i: nat)
    requires n != 0
    ensures Bit(n, i)
    decreases n
  {
    if n % 2 == 1 {
      i := 0;
    } else {
      var j := SomeBit(n / 2);
      i := j + 1;
    }
  }

  /** Some bit is set in both numbers. */
  ghost predicate ShareBit(a: nat, b: nat) {
    exists i :: Bit(a, i) && Bit(b, i)
  }

  lemma SharesBit(a: nat, b: nat)
    ensures BitAnd(a, b) != 0 <==> ShareBit(a, b)
  {
    if BitAnd(a, b) != 0 {
      var i := SomeBit(BitAnd(a, b));
      AndBits(a, b, i);
    }
    if i :| Bit(a, i) && Bit(b, i) {
      AndBits(a, b, i);
      NoBits(i);
    }
  }

  /** Bit `i` is the remainder modulo two of the number shifted right by `i`. */
  lemma {:induction false} BitIs(n: nat, i: nat)
    ensures Bit(n, i) <==> n / Pow2(i) % 2 == 1
    decreases i
  {
    if i > 0 {
      BitIs(n / 2, i - 1);
      HalfQuotient(n, Pow2(i - 1));
    }
  }

  lemma HalfQuotient(n: nat, h: nat)
    requires h > 0
    ensures n / (2 * h) == n / 2 / h
  {
    var q, r := n / 2 / h, n / 2 % h;
    assert n / 2 == h * q + r;
    assert (2 * h) * q == 2 * (h * q);
    Divides(n, 2 * h, q, 2 * r + n % 2);
  }

  function Pow2(n: nat): (p: nat)
    ensures p > 0
  {
    if n == 0 then 1 else 2 * Pow2(n - 1)
  }

  lemma {:induction false} MaskEven(a: nat, m: nat)
    ensures BitAnd(a, 2 * m) == 2 * BitAnd(a / 2, m)
  {
    if a > 0 && m > 0 {
      assert (2 * m) / 2 == m && (2 * m) % 2 == 0;
      assert BitAnd(a, 2 * m) == 2 * BitAnd(a / 2, (2 * m) / 2);
    }
  }

  lemma {:induction false} MaskOdd(a: nat, m: nat)
    ensures BitAnd(a, 2 * m + 1) == 2 * BitAnd(a / 2, m) + a % 2
  {
  }

  /** Masking with n low one-bits is the remainder modulo 2^n. */
  lemma {:induction false} LowMask(a: nat, n: nat)
    ensures BitAnd(a, Pow2(n) - 1) == a % Pow2(n)
  {
    if n > 0 {
      var h := Pow2(n - 1);
      LowMask(a / 2, n - 1);
      MaskOdd(a, h - 1);
      HalfRemainder(a, h);
    }
  }

  lemma HalfRemainder(a: nat, h: nat)
    requires h > 0
    ensures a % (2 * h) == 2 * ((a / 2) % h) + a % 2
  {
    var q, r := (a / 2) / h, (a / 2) % h;
    assert a / 2 == h * q + r;
    assert (2 * h) * q == 2 * (h * q);
    Divides(a, 2 * h, q, 2 * r + a % 2);
  }

  /** Quotient and remainder are the only pair that recomposes the dividend. */
  lemma Divides(a: nat, m: nat, q: nat, r: nat)
    requires r < m && a == m * q + r
    ensures a / m == q && a % m == r
  {
    var d := a / m;
    assert a == m * d + a % m;
    if d < q {
      StrictProduct(m, d, q);
    } else if q < d {
      StrictProduct(m, q, d);
    }
  }

  lemma {:induction false} StrictProduct(m: nat, u: nat, v: nat)
    requires u < v
    ensures m * u + m <= m * v
    decreases v
  {
    if u + 1 < v {
      StrictProduct(m, u, v - 1);
    }
    assert m * v == m * (v - 1) + m;
  }

  /** The masks the interpreter decodes an opcode with, as fields of the opcode. */
  lemma ClassMask(c: nat)
    ensures BitAnd(c, 0x07) == c % 8
  {
    SmallMasks(c);
  }

  lemma SourceMask(c: nat)
    ensures BitAnd(c, 0x08) == 8 * (c / 8 % 2)
  {
    SmallMasks(c / 8);
    MaskTimes8(c, 0x01);
  }

  lemma SizeMask(c: nat)
    ensures BitAnd(c, 0x18) == 8 * (c / 8 % 4)
  {
    SmallMasks(c / 8);
    MaskTimes8(c, 0x03);
  }

  lemma ModeMask(c: nat)
    ensures BitAnd(c, 0xE0) == 32 * (c / 32 % 8)
  {
    MaskTimes8(c, 0x1C);
    MaskEven(c / 8, 0x0E);
    MaskEven(c / 8 / 2, 0x07);
    SmallMasks(c / 8 / 2 / 2);
    assert c / 8 / 2 / 2 == c / 32;
  }

  lemma JumpMask(c: nat)
    ensures BitAnd(c, 0xF0) == 16 * (c / 16 % 16)
  {
    MaskTimes8(c, 0x1E);
    MaskEven(c / 8, 0x0F);
    SmallMasks(c / 8 / 2);
    assert c / 8 / 2 == c / 16;
  }

  lemma SmallMasks(c: nat)
    ensures BitAnd(c, 0x01) == c % 2
    ensures BitAnd(c, 0x03) == c % 4
    ensures BitAnd(c, 0x07) == c % 8
    ensures BitAnd(c, 0x0F) == c % 16
  {
    assert Pow2(1) == 2 && Pow2(2) == 4 && Pow2(3) == 8 && Pow2(4) == 16;
    LowMask(c, 1);
    LowMask(c, 2);
    LowMask(c, 3);
    LowMask(c, 4);
  }

  lemma FragmentMask(c: nat)
    ensures BitAnd(c, 0x1FFF) == c % 0x2000
  {
    assert Pow2(4) == 16;
    assert Pow2(8) == 16 * Pow2(4);
    assert Pow2(13) == 32 * Pow2(8);
    LowMask(c, 13);
  }

  lemma MaskTimes8(c: nat, m: nat)
    ensures BitAnd(c, 8 * m) == 8 * BitAnd(c / 8, m)
  {
    MaskEven(c, 4 * m);
    MaskEven(c / 2, 2 * m);
    MaskEven(c / 4, m);
    assert c / 2 / 2 == c / 4 && c / 4 / 2 == c / 8;
  }
}
