/** Go's fixed-width integer operations, on unbounded integers: the bitwise operators are
    defined bit by bit, and related to sums and remainders by lemmas. */
module Bits {

  type byte = x: int | 0 <= x < 256

  type Bytes = seq<byte>

  const TWO_63: int := 0x8000_0000_0000_0000
  const TWO_64: int := 0x1_0000_0000_0000_0000

  type u64 = x: int | 0 <= x < 0x1_0000_0000_0000_0000

  function Pow2(k: nat): (r: nat)
    ensures r > 0
  {
    if k == 0 then 1 else 2 * Pow2(k - 1)
  }

  /** The value an int64 holds after an operation whose exact result is x. */
  function Wrap64(x: int): (r: int)
    ensures -TWO_63 <= r < TWO_63
    ensures (r - x) % TWO_64 == 0
    ensures -TWO_63 <= x < TWO_63 ==> r == x
  {
    var y := x % TWO_64;
    if y >= TWO_63 then y - TWO_64 else y
  }

  /** Wrapping changes a value by a multiple of 2^64, and forgets such multiples. */
  lemma WrapCongruent(x: int)
    ensures exists k :: Wrap64(x) == x + k * 0x1_0000_0000_0000_0000
  {
    var m := 0x1_0000_0000_0000_0000;
    assert Wrap64(x) == x + (-(x / m)) * m || Wrap64(x) == x + (-(x / m) - 1) * m;
  }

  lemma WrapShift(x: int, k: int)
    ensures Wrap64(x + k * 0x1_0000_0000_0000_0000) == Wrap64(x)
  {
  }

  /** Go's conversion uint64(x). */
  function ToU64(x: int): (r: u64)
    ensures 0 <= x < TWO_64 ==> r == x
  {
    x % TWO_64
  }

  function Shl(x: nat, k: nat): nat {
    MulNonnegative(x, Pow2(k));
    x * Pow2(k)
  }

  lemma MulNonnegative(a: nat, b: nat)
    ensures a * b >= 0
  {
  }

  /** Two's-complement OR of an integer with a nonnegative one. */
  function BitOr(a: int, b: nat): int
    decreases b, a
  {
    if b == 0 then a else (if a % 2 == 1 || b % 2 == 1 then 1 else 0) + 2 * BitOr(a / 2, b / 2)
  }

  /** Two's-complement AND of an integer with a nonnegative mask. */
  function BitAnd(a: int, b: nat): (r: nat)
    decreases b, a
  {
    if b == 0 then 0 else (if a % 2 == 1 && b % 2 == 1 then 1 else 0) + 2 * BitAnd(a / 2, b / 2)
  }

  function BitXor(a: nat, b: nat): (r: nat)
    decreases a + b
  {
    if a == 0 && b == 0 then 0
    else (if a % 2 != b % 2 then 1 else 0) + 2 * BitXor(a / 2, b / 2)
  }

  lemma {:induction false} Pow2Add(i: nat, j: nat)
    ensures Pow2(i + j) == Pow2(i) * Pow2(j)
  {
    if i > 0 {
      Pow2Add(i - 1, j);
      assert i + j - 1 == (i - 1) + j;
    }
  }

  lemma HalfOfMultiple(a: int, k: nat)
    requires k > 0 && a % Pow2(k) == 0
    ensures a % 2 == 0 && (a / 2) % Pow2(k - 1) == 0
  {
    var p := Pow2(k - 1);
    var q := a / (2 * p);
    assert a == (2 * p) * q;
    assert a == 2 * (p * q);
    assert a / 2 == p * q;
    MultipleMod(q, p);
  }

  lemma MultipleMod(q: int, p: int)
    requires p > 0
    ensures (p * q) % p == 0 && (q * p) % p == 0
  {
    DivModUnique(p * q, p, q, 0);
  }

  lemma DivModUnique(a: int, d: int, q: int, r: int)
    requires d > 0 && 0 <= r < d && a == d * q + r
    ensures a / d == q && a % d == r
  {
    var q', r' := a / d, a % d;
    assert a == d * q' + r';
    assert d * (q - q') == r' - r;
    assert q - q' >= 1 ==> d * (q - q') >= d;
    assert q - q' <= -1 ==> d * (q - q') <= -d;
  }

  /** OR with a value below the lowest set bit of a is a sum. */
  lemma {:induction false} OrLow(a: int, b: nat, k: nat)
    requires a % Pow2(k) == 0 && b < Pow2(k)
    ensures BitOr(a, b) == a + b
    decreases b
  {
    if b > 0 {
      assert k > 0;
      HalfOfMultiple(a, k);
      OrLow(a / 2, b / 2, k - 1);
    }
  }

  /** OR of a small value with a multiple of a higher power of two is a sum. */
  lemma {:induction false} OrHigh(a: nat, b: nat, k: nat)
    requires a < Pow2(k) && b % Pow2(k) == 0
    ensures BitOr(a, b) == a + b
    decreases b, k
  {
    if b > 0 && k > 0 {
      HalfOfMultiple(b, k);
      OrHigh(a / 2, b / 2, k - 1);
    } else if b > 0 {
      OrZero(b);
    }
  }

  lemma OrZero(b: nat)
    ensures BitOr(0, b) == b
  {
  }

  /** Masking with 2^k - 1 keeps the remainder modulo 2^k, also of a negative value. */
  lemma {:induction false} AndMask(a: int, k: nat)
    ensures BitAnd(a, Pow2(k) - 1) == a % Pow2(k)
    decreases k
  {
    if k > 0 {
      var p := Pow2(k - 1);
      AndMask(a / 2, k - 1);
      ModTwice(a, p);
    }
  }

  lemma ModTwice(a: int, p: int)
    requires p > 0
    ensures a % (2 * p) == 2 * (a / 2 % p) + a % 2
  {
    var q, r := a / 2 / p, a / 2 % p;
    assert a == 2 * (p * q + r) + a % 2;
    assert 2 * (p * q) == (2 * p) * q;
    DivModUnique(a, 2 * p, q, 2 * r + a % 2);
  }

  lemma Powers()
    ensures Pow2(8) == 0x100 && Pow2(10) == 0x400 && Pow2(12) == 0x1000
    ensures Pow2(16) == 0x1_0000 && Pow2(22) == 0x40_0000 && Pow2(24) == 0x100_0000
    ensures Pow2(64) == TWO_64
  {
    SmallPowers();
    hide Pow2;
    Pow2Add(8, 8);
    Pow2Add(12, 10);
    Pow2Add(12, 12);
    Pow2Add(16, 16);
    Pow2Add(32, 32);
  }

  lemma SmallPowers()
    ensures Pow2(8) == 0x100 && Pow2(10) == 0x400 && Pow2(12) == 0x1000
  {
  }

  /** AndMask and OrLow with the power of two given by its value. */
  lemma AndMaskOf(a: int, k: nat, p: nat)
    requires p == Pow2(k)
    ensures BitAnd(a, p - 1) == a % p
  {
    AndMask(a, k);
  }

  lemma OrLowOf(a: int, b: nat, k: nat, p: nat)
    requires p == Pow2(k) && a % p == 0 && b < p
    ensures BitOr(a, b) == a + b
  {
    OrLow(a, b, k);
  }

  lemma XorBelow(a: nat, b: nat, k: nat)
    requires a < Pow2(k) && b < Pow2(k)
    ensures BitXor(a, b) < Pow2(k)
    decreases a + b
  {
    if a + b > 0 {
      assert k > 0;
      XorBelow(a / 2, b / 2, k - 1);
    }
  }

  /** XOR with the same value twice gives the first value back. */
  lemma {:induction false} XorTwice(a: nat, b: nat)
    ensures BitXor(BitXor(a, b), b) == a
    decreases a + b
  {
    if a + b > 0 {
      hide BitXor;
      XorStep(a, b);
      XorStep(BitXor(a, b), b);
      XorTwice(a / 2, b / 2);
    }
  }

  /** The low bit and the rest of an XOR. */
  lemma XorStep(a: nat, b: nat)
    ensures BitXor(a, b) % 2 == (if a % 2 != b % 2 then 1 else 0)
    ensures BitXor(a, b) / 2 == BitXor(a / 2, b / 2)
  {
  }

  /** Little-endian bytes of v, lowest first: what byte(v >> (8 * i)) yields for i = 0, 1, ... */
  function LittleEndian(v: nat, n: nat): (s: Bytes)
    ensures |s| == n
  {
    if n == 0 then [] else [v % 256] + LittleEndian(v / 256, n - 1)
  }

  function FromLittleEndian(s: Bytes): nat {
    if s == [] then 0 else s[0] + 256 * FromLittleEndian(s[1..])
  }

  lemma {:induction false} LittleEndianRoundTrip(v: nat, n: nat)
    requires v < Pow2(8 * n)
    ensures FromLittleEndian(LittleEndian(v, n)) == v
    decreases n
  {
    if n > 0 {
      Pow2Add(8, 8 * (n - 1));
      assert Pow2(8) == 256;
      LittleEndianRoundTrip(v / 256, n - 1);
      assert LittleEndian(v, n)[1..] == LittleEndian(v / 256, n - 1);
    }
  }

  lemma {:induction false} FromLittleEndianBelow(s: Bytes)
    ensures FromLittleEndian(s) < Pow2(8 * |s|)
  {
    if s != [] {
      FromLittleEndianBelow(s[1..]);
      Pow2Add(8, 8 * |s[1..]|);
      assert Pow2(8) == 256;
    }
  }

  /** One more high byte: OR-ing in the byte shifted by 8 * |s| extends the little-endian value. */
  lemma {:induction false} OrNextByte(s: Bytes, b: byte)
    ensures BitOr(FromLittleEndian(s), Shl(b, 8 * |s|)) == FromLittleEndian(s + [b])
  {
    FromLittleEndianBelow(s);
    AppendByte(s, b);
    MultipleMod(b, Pow2(8 * |s|));
    OrHigh(FromLittleEndian(s), b * Pow2(8 * |s|), 8 * |s|);
  }

  lemma {:induction false} AppendByte(s: Bytes, b: byte)
    ensures FromLittleEndian(s + [b]) == FromLittleEndian(s) + b * Pow2(8 * |s|)
  {
    if s == [] {
      assert s + [b] == [b];
      assert FromLittleEndian([b]) == b + 256 * FromLittleEndian([]);
    } else {
      AppendByte(s[1..], b);
      assert (s + [b])[1..] == s[1..] + [b];
      Pow2Add(8, 8 * |s[1..]|);
      assert Pow2(8) == 256;
      assert 256 * (b * Pow2(8 * |s[1..]|)) == b * (256 * Pow2(8 * |s[1..]|));
    }
  }

  /** The byte that byte(v >> (8 * i)) yields. */
  lemma {:induction false} LittleEndianAt(v: nat, n: nat, i: nat)
    requires i < n
    ensures LittleEndian(v, n)[i] == v / Pow2(8 * i) % 256
    decreases n
  {
    if i > 0 {
      LittleEndianAt(v / 256, n - 1, i - 1);
      Pow2Add(8, 8 * (i - 1));
      assert Pow2(8) == 256;
      DivDiv(v, 256, Pow2(8 * (i - 1)));
    }
  }

  lemma DivDiv(v: nat, a: nat, b: nat)
    requires a > 0 && b > 0
    ensures a * b > 0 && v / a / b == v / (a * b)
  {
    var q := v / a / b;
    var r := v / a % b;
    assert v / a == b * q + r;
    assert v == a * (b * q + r) + v % a;
    assert a * (b * q + r) == (a * b) * q + a * r;
    assert a * r + v % a < a * b by {
      assert a * r <= a * (b - 1);
      assert a * (b - 1) == a * b - a;
    }
    DivModUnique(v, a * b, q, a * r + v % a);
  }
}
