/** Machine words: bytes, 32-bit wrap-around, and the big-endian layout used on the wire. */
module Words {
  type byte = x: int | 0 <= x < 0x100

  const TWO_31: int := 0x8000_0000
  const TWO_32: int := 0x1_0000_0000
  const TWO_64: int := 0x1_0000_0000_0000_0000

  type u32 = x: int | 0 <= x < TWO_32

  /** Conversion to `unsigned int`. */
  function U32(x: int): u32 {
    x % TWO_32
  }

  /** Conversion to `unsigned long long`. */
  function U64(x: int): nat {
    x % TWO_64
  }

  /** Conversion of an `unsigned int` to `int` (two's complement). */
  function S32(x: u32): int {
    if x < TWO_31 then x else x - TWO_32
  }

  /** 2^n */
  function Pow2(n: nat): (p: nat)
    ensures p > 0
  {
    if n == 0 then 1 else 2 * Pow2(n - 1)
  }

  lemma {:induction false} Pow2Add(a: nat, b: nat)
    ensures Pow2(a + b) == Pow2(a) * Pow2(b)
  {
    if a == 0 {
    } else {
      Pow2Add(a - 1, b);
      assert Pow2(a + b) == 2 * Pow2(a - 1 + b);
    }
  }

  lemma {:induction false} Pow2Grows(a: nat, b: nat)
    requires a <= b
    ensures Pow2(a) <= Pow2(b)
    decreases b - a
  {
    if a == b {
    } else {
      Pow2Grows(a, b - 1);
    }
  }

  lemma Pow2Constants()
    ensures Pow2(8) == 0x100 && Pow2(16) == 0x1_0000
    ensures Pow2(21) == 0x20_0000 && Pow2(22) == 0x40_0000
    ensures Pow2(32) == TWO_32 && Pow2(64) == TWO_64
  {
    Pow2Add(16, 16);
    Pow2Add(32, 32);
  }

  /** The n low-order bytes of v (two's complement when v is negative), most significant first. */
  function BigEndian(n: nat, v: int): (b: seq<byte>)
    ensures |b| == n
  {
    if n == 0 then [] else BigEndian(n - 1, v / 0x100) + [v % 0x100]
  }

  /** Byte i of n is the (n - 1 - i)-th digit of v to base 256. */
  lemma {:induction false} BigEndianAt(n: nat, v: int, i: nat)
    requires i < n
    ensures BigEndian(n, v)[i] == v / Pow2(8 * (n - 1 - i)) % 0x100
    decreases n
  {
    if i < n - 1 {
      BigEndianAt(n - 1, v / 0x100, i);
      Pow2Step(n - 2 - i);
      DivTwice(v, Pow2(8 * (n - 2 - i)));
    }
  }

  lemma DivTwice(i: int, p: int)
    requires p > 0
    ensures i / 0x100 / p == i / (p * 0x100)
  {
    var q, r := i / 0x100, i % 0x100;
    var a, m := q / p, q % p;
    assert i == a * (p * 0x100) + (m * 0x100 + r);
    DivModUnique(i, p * 0x100, a, m * 0x100 + r);
  }

  function FromBigEndian(b: seq<byte>): nat {
    if b == [] then 0 else FromBigEndian(b[..|b| - 1]) * 0x100 + b[|b| - 1]
  }

  lemma {:induction false} FromBigEndianBound(b: seq<byte>)
    ensures FromBigEndian(b) < Pow2(8 * |b|)
  {
    if b == [] {
    } else {
      FromBigEndianBound(b[..|b| - 1]);
      Pow2Step(|b| - 1);
    }
  }

  lemma Pow2Step(n: nat)
    ensures Pow2(8 * (n + 1)) == Pow2(8 * n) * 0x100
  {
    Pow2Add(8 * n, 8);
    Pow2Constants();
  }

  lemma DivModStep(v: int, p: int)
    requires p > 0
    ensures (v / 0x100) % p * 0x100 + v % 0x100 == v % (p * 0x100)
  {
    var q, r := v / 0x100, v % 0x100;
    var a, m := q / p, q % p;
    assert v == a * (p * 0x100) + (m * 0x100 + r);
    DivModUnique(v, p * 0x100, a, m * 0x100 + r);
  }

  lemma DivModUnique(v: int, d: int, q: int, r: int)
    requires 0 <= r < d && v == q * d + r
    ensures v / d == q && v % d == r
  {
    var q', r' := v / d, v % d;
    assert v == q' * d + r';
    var k := q' - q;
    assert k * d == r - r' by {
      Distribute(q', q, d);
    }
    MultipleGap(k, d);
  }

  lemma SmallMod(x: nat, p: nat)
    requires x < p
    ensures x % p == x
  {
  }

  lemma Distribute(x: int, y: int, d: int)
    ensures (x - y) * d == x * d - y * d
  {
  }

  lemma MultipleGap(k: int, d: int)
    requires d > 0
    ensures k >= 1 ==> k * d >= d
    ensures k <= -1 ==> k * d <= -d
  {
    Distribute(k, 1, d);
    Distribute(-1, k, d);
  }

  lemma {:induction false} BigEndianValue(n: nat, v: int)
    ensures FromBigEndian(BigEndian(n, v)) == v % Pow2(8 * n)
  {
    if n == 0 {
    } else {
      BigEndianValue(n - 1, v / 0x100);
      assert BigEndian(n, v)[..n - 1] == BigEndian(n - 1, v / 0x100);
      Pow2Step(n - 1);
      DivModStep(v, Pow2(8 * (n - 1)));
    }
  }

  lemma {:induction false} BigEndianBytes(b: seq<byte>, v: int)
    requires v % Pow2(8 * |b|) == FromBigEndian(b)
    ensures BigEndian(|b|, v) == b
  {
    if b == [] {
    } else {
      var n := |b| - 1;
      Pow2Step(n);
      DivModStep(v, Pow2(8 * n));
      var hi, lo := FromBigEndian(b[..n]), b[n];
      assert (v / 0x100) % Pow2(8 * n) == hi && v % 0x100 == lo;
      BigEndianBytes(b[..n], v / 0x100);
    }
  }
}
