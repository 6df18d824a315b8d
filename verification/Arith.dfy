/** Machine words as bounded integers, powers, shifts and the bitwise OR they share. */
module Arith {
  type byte = x: int | 0 <= x < 256
  type u32 = x: int | 0 <= x < TWO32
  type u64 = x: int | 0 <= x < TWO64
  type i64 = x: int | -TWO63 <= x < TWO63
  type u256 = x: int | 0 <= x < TWO256

  const TWO31: int := 0x8000_0000
  const TWO32: int := 0x1_0000_0000
  const TWO63: int := 0x8000_0000_0000_0000
  const TWO64: int := 0x1_0000_0000_0000_0000
  const TWO128: int := TWO64 * TWO64
  const TWO256: int := TWO128 * TWO128

  /** Reinterpretation of an unsigned word as a two's complement one. */
  function Signed64(x: u64): i64 {
    if x < TWO63 then x else x - TWO64
  }

  function Signed32(x: u32): int {
    if x < TWO31 then x else x - TWO32
  }

  function Unsigned64(x: i64): u64 {
    if x < 0 then x + TWO64 else x
  }

  function Pow(b: nat, e: nat): nat {
    if e == 0 then 1 else b * Pow(b, e - 1)
  }

  lemma {:induction false} PowPositive(b: nat, e: nat)
    requires b > 0
    ensures Pow(b, e) > 0
  {
    if e == 0 {
    } else {
      PowPositive(b, e - 1);
    }
  }

  lemma {:induction false} PowAdd(b: nat, e: nat, f: nat)
    ensures Pow(b, e + f) == Pow(b, e) * Pow(b, f)
  {
    if e == 0 {
    } else {
      PowAdd(b, e - 1, f);
      MulAssoc(b, Pow(b, e - 1), Pow(b, f));
    }
  }

  lemma {:induction false} PowMonotone(b: nat, e: nat, f: nat)
    requires b > 0 && e <= f
    ensures Pow(b, e) <= Pow(b, f)
  {
    if e == f {
    } else {
      PowMonotone(b, e, f - 1);
      PowPositive(b, f - 1);
      MulLe(1, b, Pow(b, f - 1));
    }
  }

  /** Powers of two at the word sizes used by the limb code. */
  lemma {:induction false} Pow2Words()
    ensures Pow(2, 7) == 128 && Pow(2, 8) == 256 && Pow(2, 16) == 0x1_0000
    ensures Pow(2, 32) == TWO32 && Pow(2, 64) == TWO64
    ensures Pow(2, 128) == TWO128 && Pow(2, 256) == TWO256
  {
    assert Pow(2, 4) == 16;
    PowAdd(2, 4, 3);
    PowAdd(2, 4, 4);
    PowAdd(2, 8, 8);
    PowAdd(2, 16, 16);
    PowAdd(2, 32, 32);
    PowAdd(2, 64, 64);
    PowAdd(2, 128, 128);
  }

  lemma {:induction false} MulAssoc(a: int, b: int, c: int)
    ensures a * b * c == a * (b * c)
  {}

  lemma {:induction false} MulLe(a: int, b: int, c: int)
    requires a <= b && 0 <= c
    ensures a * c <= b * c
  {}

  /** The quotient and remainder are determined by the division equation. */
  lemma {:induction false} DivModUnique(n: int, d: int, q: int, r: int)
    requires 0 <= r < d && n == q * d + r
    ensures n / d == q && n % d == r
  {
    var q' := n / d;
    var r' := n % d;
    assert n == q' * d + r';
    assert (q - q') * d == r' - r;
    if q - q' >= 1 {
      MulLe(1, q - q', d);
    } else if q - q' <= -1 {
      MulLe(q - q', -1, d);
    }
  }

  lemma {:induction false} SmallMod(n: int, d: int)
    requires 0 <= n < d
    ensures n % d == n && n / d == 0
  {
    DivModUnique(n, d, 0, n);
  }

  lemma {:induction false} ModAddMultiple(n: int, k: int, d: int)
    requires d > 0
    ensures (n + k * d) % d == n % d
    ensures (n + k * d) / d == n / d + k
  {
    var q, r := n / d, n % d;
    assert n + k * d == (q + k) * d + r;
    DivModUnique(n + k * d, d, q + k, r);
  }

  /** Splitting a division by a product into two divisions. */
  lemma {:induction false} DivDiv(n: nat, a: nat, b: nat)
    requires a > 0 && b > 0
    ensures a * b > 0 && n / (a * b) == n / a / b
    ensures n % (a * b) == (n / a % b) * a + n % a
  {
    var q := n / a;
    var t, s := q / b, q % b;
    assert n == (t * b + s) * a + n % a;
    assert (t * b + s) * a == t * (a * b) + s * a;
    MulLe(s, b - 1, a);
    assert (b - 1) * a == a * b - a;
    assert a * b > 0;
    DivModUnique(n, a * b, t, s * a + n % a);
  }

  lemma {:induction false} DivLess(n: nat, d: nat, k: nat)
    requires d > 0 && n < k * d
    ensures n / d < k
  {
    if n / d >= k {
      MulLe(k, n / d, d);
    }
  }

  /**
   * Shifting a two-limb number left by v bits, limb by limb: `base` is the limb modulus,
   * `p` is 2^v and `q` the complementary power, p * q == base.
   */
  lemma {:induction false} ShiftLeftLimbs(hi: nat, lo: nat, base: nat, p: nat, q: nat)
    requires p > 0 && q > 0 && p * q == base && lo < base
    ensures lo / q < p && hi * p % base + lo / q < base
    ensures (hi * base + lo) * p % (base * base) == (hi * p % base + lo / q) * base + lo * p % base
  {
    var x, y := hi * p, lo * p;
    LowShift(lo, base, p, q);
    MultipleBelow(hi, x, base, p, q);
    CombineLimbs(x, y, base);
    ScaleLimbs(hi, lo, base, p);
  }

  lemma {:induction false} ScaleLimbs(hi: int, lo: int, base: int, p: int)
    ensures (hi * base + lo) * p == hi * p * base + lo * p
  {}

  /** The bits a limb shift pushes out, and those it keeps. */
  lemma {:induction false} LowShift(lo: nat, base: nat, p: nat, q: nat)
    requires p > 0 && q > 0 && p * q == base && lo < base
    ensures lo / q < p && lo * p / base == lo / q
  {
    var t, s := lo / q, lo % q;
    DivLess(lo, q, p);
    assert lo * p == t * base + s * p by {
      assert (t * q + s) * p == t * q * p + s * p;
      assert t * q * p == t * base;
    }
    MulLe(s, q - 1, p);
    assert (q - 1) * p == base - p;
    DivModUnique(lo * p, base, t, s * p);
  }

  lemma {:induction false} CombineLimbs(x: nat, y: nat, base: nat)
    requires base > 0 && x % base + y / base < base
    ensures (x * base + y) % (base * base) == (x % base + y / base) * base + y % base
  {
    var c, d, t, e := x / base, x % base, y / base, y % base;
    assert x * base == c * (base * base) + d * base by {
      assert x * base == (c * base + d) * base;
    }
    assert x * base + y == c * (base * base) + ((d + t) * base + e);
    MulLe(d + t, base - 1, base);
    assert (base - 1) * base == base * base - base;
    DivModUnique(x * base + y, base * base, c, (d + t) * base + e);
  }

  lemma {:induction false} MultipleBelow(hi: nat, x: nat, base: nat, p: nat, q: nat)
    requires p > 0 && q > 0 && p * q == base && hi * p == x
    ensures base > 0 && x % base <= base - p
  {
    var c, d := x / base, x % base;
    var m := hi - c * q;
    assert d == m * p by {
      assert (hi - c * q) * p == hi * p - c * q * p;
      assert c * q * p == c * base;
    }
    if m > q - 1 {
      MulLe(q, m, p);
    } else {
      MulLe(m, q - 1, p);
      assert (q - 1) * p == base - p;
    }
  }

  /** Shifting a two-limb number right by v bits, limb by limb. */
  lemma {:induction false} ShiftRightLimbs(hi: nat, lo: nat, base: nat, p: nat, q: nat)
    requires p > 0 && q > 0 && p * q == base && hi < base && lo < base
    ensures hi * q % base + lo / p < base && hi / p < base
    ensures (hi * base + lo) / p == hi / p * base + (hi * q % base + lo / p)
  {
    var x := hi * q;
    LowShift(hi, base, q, p);
    MultipleBelow(hi, x, base, q, p);
    DivLess(lo, p, q);
    assert x * p == hi * base by {
      MulAssoc(hi, q, p);
    }
    ShiftedSum(hi * base + lo, lo, x, p);
    DivMul(x, base);
    DivAtMost(hi, p);
  }

  lemma {:induction false} ShiftedSum(n: int, lo: int, x: int, p: int)
    requires p > 0 && n == x * p + lo
    ensures n / p == lo / p + x
  {
    ModAddMultiple(lo, x, p);
  }

  lemma {:induction false} DivMul(n: int, d: int)
    requires d > 0
    ensures n / d * d + n % d == n
  {}

  lemma {:induction false} DivAtMost(n: nat, d: nat)
    requires d > 0
    ensures n / d <= n
  {
    MulLe(1, d, n / d);
  }

  /** Bitwise OR of naturals, bit by bit. */
  function BitOr(a: nat, b: nat): nat
    decreases a + b
  {
    if a == 0 && b == 0 then 0
    else 2 * BitOr(a / 2, b / 2) + (if a % 2 == 1 || b % 2 == 1 then 1 else 0)
  }

  lemma {:induction false} BitOrComm(a: nat, b: nat)
    ensures BitOr(a, b) == BitOr(b, a)
    decreases a + b
  {
    if a == 0 && b == 0 {
    } else {
      BitOrComm(a / 2, b / 2);
    }
  }

  lemma {:induction false} BitOrZero(a: nat)
    ensures BitOr(a, 0) == a
  {
    if a == 0 {
    } else {
      BitOrZero(a / 2);
    }
  }

  /** Doubling `k` times. */
  function Shl(x: nat, k: nat): nat {
    if k == 0 then x else 2 * Shl(x, k - 1)
  }

  lemma {:induction false} ShlIsPow(x: nat, k: nat)
    ensures Shl(x, k) == x * Pow(2, k)
  {
    if k == 0 {
    } else {
      ShlIsPow(x, k - 1);
      DoubleAssoc(x, Pow(2, k - 1));
    }
  }

  /** Halving `k` times. */
  function Shr(x: nat, k: nat): nat {
    if k == 0 then x else Shr(x / 2, k - 1)
  }

  lemma {:induction false} ShrIsDiv(x: nat, k: nat)
    ensures Pow(2, k) > 0 && Shr(x, k) == x / Pow(2, k)
  {
    PowPositive(2, k);
    if k == 0 {
    } else {
      ShrIsDiv(x / 2, k - 1);
      DivDiv(x, 2, Pow(2, k - 1));
    }
  }

  lemma {:induction false} DoubleAssoc(h: int, p: int)
    ensures h * (2 * p) == 2 * (h * p)
  {}

  /** OR works independently on the bits below and above any position. */
  lemma {:induction false} BitOrSplit(hi: nat, lo: nat, hi': nat, lo': nat, k: nat)
    requires lo < Pow(2, k) && lo' < Pow(2, k)
    ensures BitOr(lo, lo') < Pow(2, k)
    ensures BitOr(Shl(hi, k) + lo, Shl(hi', k) + lo') == Shl(BitOr(hi, hi'), k) + BitOr(lo, lo')
  {
    if k == 0 {
    } else {
      BitOrSplit(hi, lo / 2, hi', lo' / 2, k - 1);
      BitOrJoin(Shl(hi, k - 1), Shl(hi', k - 1), Shl(BitOr(hi, hi'), k - 1), lo, lo', Pow(2, k - 1));
    }
  }

  /** One more low bit on each side of an OR. */
  lemma {:induction false} BitOrJoin(h: nat, h': nat, g: nat, lo: nat, lo': nat, p: nat)
    requires BitOr(h + lo / 2, h' + lo' / 2) == g + BitOr(lo / 2, lo' / 2)
    requires BitOr(lo / 2, lo' / 2) < p
    ensures BitOr(2 * h + lo, 2 * h' + lo') == 2 * g + BitOr(lo, lo')
    ensures BitOr(lo, lo') < 2 * p
  {
    BitOrStep(lo, lo');
    BitOrStep(2 * h + lo, 2 * h' + lo');
  }

  lemma {:induction false} BitOrStep(a: nat, b: nat)
    ensures BitOr(a, b) / 2 == BitOr(a / 2, b / 2)
    ensures BitOr(a, b) % 2 == (if a % 2 == 1 || b % 2 == 1 then 1 else 0)
  {}

  /** OR of numbers that occupy disjoint bit ranges is their sum. */
  lemma {:induction false} BitOrDisjoint(hi: nat, lo: nat, k: nat)
    requires lo < Pow(2, k)
    ensures BitOr(hi * Pow(2, k), lo) == hi * Pow(2, k) + lo == BitOr(lo, hi * Pow(2, k))
  {
    var a := Shl(hi, k);
    ShlIsPow(hi, k);
    ShlIsPow(0, k);
    BitOrSplit(hi, 0, 0, lo, k);
    BitOrZero(hi);
    BitOrZero(lo);
    BitOrComm(0, lo);
    BitOrComm(a, lo);
  }
}
