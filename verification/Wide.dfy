/**
 * The 128- and 256-bit integers of src/uint256.c. A 256-bit number is an object that holds
 * its two halves in place, so that the target of an operation may be one of its operands;
 * a half is a value of two 64-bit limbs.
 */
module Wide {
  import opened Arith

  datatype U128 = U128(upper: u64, lower: u64) {
    ghost function Value(): (v: nat)
      ensures v < TWO128
    {
      upper * TWO64 + lower
    }
  }

  class U256 {
    var upper: U128
    var lower: U128

    constructor ()
      ensures upper == lower == U128(0, 0)
      ensures Value() == 0
    {
      upper, lower := U128(0, 0), U128(0, 0);
    }

    ghost function Value(): (v: nat)
      reads this
      ensures v < TWO256
    {
      upper.Value() * TWO128 + lower.Value()
    }
  }

  // 64-bit machine operations

  /** Wrapping addition and subtraction below a modulus, without a division. */
  function AddMod(a: nat, b: nat, m: nat): (r: nat)
    requires a < m && b < m
    ensures r < m
  {
    if a + b < m then a + b else a + b - m
  }

  function SubMod(a: nat, b: nat, m: nat): (r: nat)
    requires a < m && b < m
    ensures r < m
  {
    if a >= b then a - b else a - b + m
  }

  lemma {:induction false} WrapIsMod(a: nat, b: nat, m: nat)
    requires a < m && b < m
    ensures AddMod(a, b, m) == (a + b) % m && SubMod(a, b, m) == (a - b) % m
  {
    DivModUnique(a + b, m, if a + b < m then 0 else 1, AddMod(a, b, m));
    DivModUnique(a - b, m, if a >= b then 0 else -1, SubMod(a, b, m));
  }

  function Add64(a: u64, b: u64): u64 {
    AddMod(a, b, TWO64)
  }

  function Sub64(a: u64, b: u64): u64 {
    SubMod(a, b, TWO64)
  }

  function Shl64(a: u64, s: nat): u64
    requires s < 64
  {
    Shl(a, s) % TWO64
  }

  function Shr64(a: u64, s: nat): (r: u64)
    requires s < 64
    ensures r <= a
  {
    ShrAtMost(a, s);
    Shr(a, s)
  }

  lemma {:induction false} ShrAtMost(a: nat, s: nat)
    ensures Shr(a, s) <= a
  {
    if s == 0 {
    } else {
      ShrAtMost(a / 2, s - 1);
    }
  }

  // Predicates

  predicate Zero128(n: U128)
    ensures Zero128(n) <==> n.Value() == 0
  {
    n.lower == 0 && n.upper == 0
  }

  predicate Equal128(a: U128, b: U128)
    ensures Equal128(a, b) <==> a.Value() == b.Value()
  {
    a.upper == b.upper && a.lower == b.lower
  }

  predicate Gt128(a: U128, b: U128)
    ensures Gt128(a, b) <==> a.Value() > b.Value()
  {
    if a.upper == b.upper then a.lower > b.lower else a.upper > b.upper
  }

  predicate Gte128(a: U128, b: U128)
    ensures Gte128(a, b) <==> a.Value() >= b.Value()
  {
    Gt128(a, b) || Equal128(a, b)
  }

  predicate Zero256(n: U256)
    reads n
    ensures Zero256(n) <==> n.Value() == 0
  {
    Zero128(n.lower) && Zero128(n.upper)
  }

  predicate Equal256(a: U256, b: U256)
    reads a, b
    ensures Equal256(a, b) <==> a.Value() == b.Value()
  {
    Equal128(a.upper, b.upper) && Equal128(a.lower, b.lower)
  }

  predicate Gt256(a: U256, b: U256)
    reads a, b
    ensures Gt256(a, b) <==> a.Value() > b.Value()
  {
    if Equal128(a.upper, b.upper) then Gt128(a.lower, b.lower) else Gt128(a.upper, b.upper)
  }

  predicate Gte256(a: U256, b: U256)
    reads a, b
    ensures Gte256(a, b) <==> a.Value() >= b.Value()
  {
    Gt256(a, b) || Equal256(a, b)
  }

  // Copying

  method Copy256(target: U256, number: U256)
    modifies target
    ensures target.Value() == old(number.Value())
  {
    target.upper := number.upper;
    target.lower := number.lower;
  }

  method Clear256(target: U256)
    modifies target
    ensures target.Value() == 0 && target.upper == target.lower == U128(0, 0)
  {
    target.upper := U128(0, 0);
    target.lower := U128(0, 0);
  }

  // Shifts

  /** 2^v and 2^(64-v) are complementary factors of the limb modulus; 2^(64+v) is a whole limb more than 2^v. */
  lemma {:induction false} Factors64(v: nat)
    ensures Pow(2, v) > 0 && Pow(2, v + 64) == TWO64 * Pow(2, v)
    ensures v <= 64 ==> Pow(2, 64 - v) > 0 && Pow(2, v) * Pow(2, 64 - v) == TWO64
  {
    Pow2Words();
    PowPositive(2, v);
    PowAdd(2, 64, v);
    if v <= 64 {
      PowPositive(2, 64 - v);
      PowAdd(2, v, 64 - v);
    }
  }

  lemma {:induction false} Factors128(v: nat)
    ensures Pow(2, v) > 0 && Pow(2, v + 128) == TWO128 * Pow(2, v)
    ensures v <= 128 ==> Pow(2, 128 - v) > 0 && Pow(2, v) * Pow(2, 128 - v) == TWO128
  {
    Pow2Words();
    PowPositive(2, v);
    PowAdd(2, 128, v);
    if v <= 128 {
      PowPositive(2, 128 - v);
      PowAdd(2, v, 128 - v);
    }
  }

  lemma {:induction false} Factors256(v: nat)
    ensures Pow(2, v) > 0 && Pow(2, v + 256) == TWO256 * Pow(2, v)
  {
    Pow2Words();
    PowPositive(2, v);
    PowAdd(2, 256, v);
  }

  /** Shifting by a whole limb and a further factor p. */
  lemma {:induction false} ShiftLeftWhole(hi: nat, lo: nat, base: nat, p: nat)
    requires base > 0
    ensures (hi * base + lo) * (base * p) % (base * base) == lo * p % base * base
  {
    var x := hi * p * base + lo * p;
    ScaleLimbs(hi, lo, base, p);
    assert (hi * base + lo) * (base * p) == x * base by {
      MulAssoc(hi * base + lo, p, base);
    }
    CombineLimbs(x, 0, base);
    ModAddMultiple(lo * p, hi * p, base);
  }

  lemma {:induction false} MultipleMod(k: int, d: int)
    requires d > 0
    ensures k * d % d == 0
  {
    ModAddMultiple(0, k, d);
  }

  lemma {:induction false} ShiftLeftBeyond(n: nat, base: nat, p: nat)
    requires base > 0
    ensures n * (base * p) % base == 0
  {
    MulAssoc(n, p, base);
    MultipleMod(n * p, base);
  }

  lemma {:induction false} ShiftRightWhole(hi: nat, lo: nat, base: nat, p: nat)
    requires lo < base && p > 0
    ensures base * p > 0 && (hi * base + lo) / (base * p) == hi / p
  {
    DivDiv(hi * base + lo, base, p);
    DivModUnique(hi * base + lo, base, hi, lo);
  }

  lemma {:induction false} ShiftRightBeyond(n: nat, base: nat, p: nat)
    requires n < base && p > 0
    ensures base * p > 0 && n / (base * p) == 0
  {
    MulLe(1, p, base);
    DivModUnique(n, base * p, 0, n);
  }

  lemma {:induction false} ShiftLeft128Small(hi: u64, lo: u64, value: nat)
    requires 0 < value < 64
    ensures Shl(hi * TWO64 + lo, value) % TWO128 ==
            Add64(Shl64(hi, value), Shr64(lo, 64 - value)) * TWO64 + Shl64(lo, value)
  {
    ShlIsPow(hi * TWO64 + lo, value);
    ShlIsPow(hi, value);
    ShlIsPow(lo, value);
    ShrIsDiv(lo, 64 - value);
    Factors64(value);
    ShiftLeftLimbs(hi, lo, TWO64, Pow(2, value), Pow(2, 64 - value));
  }

  lemma {:induction false} ShiftLeft128Large(hi: u64, lo: u64, value: nat)
    requires 64 <= value < 128
    ensures Shl(hi * TWO64 + lo, value) % TWO128 == Shl64(lo, value - 64) * TWO64
  {
    ShlIsPow(hi * TWO64 + lo, value);
    ShlIsPow(lo, value - 64);
    Factors64(value - 64);
    ShiftLeftWhole(hi, lo, TWO64, Pow(2, value - 64));
  }

  lemma {:induction false} ShiftLeft128Beyond(n: nat, value: nat)
    requires value >= 128
    ensures Shl(n, value) % TWO128 == 0
  {
    ShlIsPow(n, value);
    Factors128(value - 128);
    ShiftLeftBeyond(n, TWO128, Pow(2, value - 128));
  }

  /** The limbs a left shift leaves behind, case by case. */
  ghost function LimbsShiftedLeft(hi: u64, lo: u64, value: nat): nat {
    if value >= 128 then 0
    else if value >= 64 then Shl64(lo, value - 64) * TWO64
    else if value == 0 then hi * TWO64 + lo
    else Add64(Shl64(hi, value), Shr64(lo, 64 - value)) * TWO64 + Shl64(lo, value)
  }

  lemma {:induction false} ShiftLeft128Correct(hi: u64, lo: u64, value: nat)
    ensures Shl(hi * TWO64 + lo, value) % TWO128 == LimbsShiftedLeft(hi, lo, value)
  {
    if value >= 128 {
      ShiftLeft128Beyond(hi * TWO64 + lo, value);
    } else if value >= 64 {
      ShiftLeft128Large(hi, lo, value);
    } else if value > 0 {
      ShiftLeft128Small(hi, lo, value);
    }
  }

  lemma {:induction false} Shl64Zero(a: u64)
    ensures Shl64(a, 0) == a == Shr64(a, 0)
  {}

  /** Left shift modulo 2^128, for every shift amount. */
  method ShiftLeft128(number: U128, value: nat) returns (target: U128)
    ensures target.Value() == Shl(number.Value(), value) % TWO128
  {
    ShiftLeft128Correct(number.upper, number.lower, value);
    if value >= 128 {
      target := U128(0, 0);
    } else if value == 64 {
      Shl64Zero(number.lower);
      target := U128(number.lower, 0);
    } else if value == 0 {
      target := number;
    } else if value < 64 {
      target := U128(Add64(Shl64(number.upper, value), Shr64(number.lower, 64 - value)), Shl64(number.lower, value));
    } else {
      target := U128(Shl64(number.lower, value - 64), 0);
    }
  }

  lemma {:induction false} ShiftRight128Small(hi: u64, lo: u64, value: nat)
    requires 0 < value < 64
    ensures Shr(hi * TWO64 + lo, value) ==
            Shr64(hi, value) * TWO64 + Add64(Shl64(hi, 64 - value), Shr64(lo, value))
  {
    ShrIsDiv(hi * TWO64 + lo, value);
    ShrIsDiv(hi, value);
    ShrIsDiv(lo, value);
    ShlIsPow(hi, 64 - value);
    Factors64(value);
    ShiftRightLimbs(hi, lo, TWO64, Pow(2, value), Pow(2, 64 - value));
  }

  lemma {:induction false} ShiftRight128Large(hi: u64, lo: u64, value: nat)
    requires 64 <= value < 128
    ensures Shr(hi * TWO64 + lo, value) == Shr64(hi, value - 64)
  {
    ShrIsDiv(hi * TWO64 + lo, value);
    ShrIsDiv(hi, value - 64);
    Factors64(value - 64);
    ShiftRightWhole(hi, lo, TWO64, Pow(2, value - 64));
  }

  lemma {:induction false} ShiftRight128Beyond(n: nat, value: nat)
    requires value >= 128 && n < TWO128
    ensures Shr(n, value) == 0
  {
    ShrIsDiv(n, value);
    Factors128(value - 128);
    ShiftRightBeyond(n, TWO128, Pow(2, value - 128));
  }

  ghost function LimbsShiftedRight(hi: u64, lo: u64, value: nat): nat {
    if value >= 128 then 0
    else if value >= 64 then Shr64(hi, value - 64)
    else if value == 0 then hi * TWO64 + lo
    else Shr64(hi, value) * TWO64 + Add64(Shl64(hi, 64 - value), Shr64(lo, value))
  }

  lemma {:induction false} ShiftRight128Correct(hi: u64, lo: u64, value: nat)
    ensures Shr(hi * TWO64 + lo, value) == LimbsShiftedRight(hi, lo, value)
  {
    if value >= 128 {
      ShiftRight128Beyond(hi * TWO64 + lo, value);
    } else if value >= 64 {
      ShiftRight128Large(hi, lo, value);
    } else if value > 0 {
      ShiftRight128Small(hi, lo, value);
    }
  }

  method ShiftRight128(number: U128, value: nat) returns (target: U128)
    ensures target.Value() == Shr(number.Value(), value)
  {
    ShiftRight128Correct(number.upper, number.lower, value);
    if value >= 128 {
      target := U128(0, 0);
    } else if value == 64 {
      Shl64Zero(number.upper);
      target := U128(0, number.upper);
    } else if value == 0 {
      target := number;
    } else if value < 64 {
      target := U128(Shr64(number.upper, value), Add64(Shl64(number.upper, 64 - value), Shr64(number.lower, value)));
    } else {
      target := U128(0, Shr64(number.upper, value - 64));
    }
  }

  /** A 128-bit number addressed through a pointer. */
  class Cell128 {
    var upper: u64
    var lower: u64

    ghost function Value(): (v: nat)
      reads this
    {
      U128(upper, lower).Value()
    }
  }

  /**
   * The same right shift through pointers. By exactly one limb it clears the upper limb before
   * reading it, so done in place that shift, and no other, loses the value.
   */
  method ShiftRight128Into(number: Cell128, value: nat, target: Cell128)
    modifies target
    ensures target.Value() == if value == 64 && target == number then 0 else Shr(old(number.Value()), value)
  {
    ShiftRight128Correct(number.upper, number.lower, value);
    if value >= 128 {
      target.upper, target.lower := 0, 0;
    } else if value == 64 {
      Shl64Zero(number.upper);
      target.upper := 0;
      target.lower := number.upper;
    } else if value == 0 {
      target.upper := number.upper;
      target.lower := number.lower;
    } else if value < 64 {
      var result := U128(
        Shr64(number.upper, value),
        Add64(Shl64(number.upper, 64 - value), Shr64(number.lower, value)));
      target.upper, target.lower := result.upper, result.lower;
    } else {
      target.lower := Shr64(number.upper, value - 64);
      target.upper := 0;
    }
  }

  // Addition, subtraction and OR

  /** Addition and subtraction modulo 2^128. */
  method Add128(a: U128, b: U128) returns (target: U128)
    ensures target.Value() == AddMod(a.Value(), b.Value(), TWO128)
  {
    var carry := if Add64(a.lower, b.lower) < a.lower then 1 else 0;
    target := U128(Add64(Add64(a.upper, b.upper), carry), Add64(a.lower, b.lower));
  }

  method Minus128(a: U128, b: U128) returns (target: U128)
    ensures target.Value() == SubMod(a.Value(), b.Value(), TWO128)
  {
    var borrow := if Sub64(a.lower, b.lower) > a.lower then 1 else 0;
    target := U128(Sub64(Sub64(a.upper, b.upper), borrow), Sub64(a.lower, b.lower));
  }

  method Or128(a: U128, b: U128) returns (target: U128)
    ensures target.Value() == BitOr(a.Value(), b.Value())
  {
    OrLimbs64(a.upper, a.lower, b.upper, b.lower);
    target := U128(BitOr(a.upper, b.upper), BitOr(a.lower, b.lower));
  }

  lemma {:induction false} OrLimbs64(hi: u64, lo: u64, hi': u64, lo': u64)
    ensures BitOr(hi, hi') < TWO64 && BitOr(lo, lo') < TWO64
    ensures BitOr(hi * TWO64 + lo, hi' * TWO64 + lo') == BitOr(hi, hi') * TWO64 + BitOr(lo, lo')
  {
    BitOrAtWord(hi, lo, hi', lo', 64, TWO64);
    BitOrAtWord(0, hi, 0, hi', 64, TWO64);
  }

  lemma {:induction false} OrLimbs128(hi: nat, lo: nat, hi': nat, lo': nat)
    requires hi < TWO128 && lo < TWO128 && hi' < TWO128 && lo' < TWO128
    ensures BitOr(hi * TWO128 + lo, hi' * TWO128 + lo') == BitOr(hi, hi') * TWO128 + BitOr(lo, lo')
  {
    BitOrAtWord(hi, lo, hi', lo', 128, TWO128);
  }

  lemma {:induction false} BitOrAtWord(hi: nat, lo: nat, hi': nat, lo': nat, k: nat, base: nat)
    requires (k == 64 && base == TWO64) || (k == 128 && base == TWO128)
    requires lo < base && lo' < base
    ensures BitOr(lo, lo') < base
    ensures BitOr(hi * base + lo, hi' * base + lo') == BitOr(hi, hi') * base + BitOr(lo, lo')
  {
    PowAtWord(k, base);
    BitOrSplit(hi, lo, hi', lo', k);
    ShlIsPow(hi, k);
    ShlIsPow(hi', k);
    ShlIsPow(BitOr(hi, hi'), k);
  }

  lemma {:induction false} PowAtWord(k: nat, base: nat)
    requires (k == 64 && base == TWO64) || (k == 128 && base == TWO128)
    ensures Pow(2, k) == base
  {
    Pow2Words();
  }

  /** A carry out of the lower half shows as a wrapped sum, a borrow as a wrapped difference. */
  lemma {:induction false} AddHalves(hi: nat, lo: nat, hi': nat, lo': nat)
    requires hi < TWO128 && lo < TWO128 && hi' < TWO128 && lo' < TWO128
    ensures
      var up := AddMod(hi, hi', TWO128);
      var low := AddMod(lo, lo', TWO128);
      AddMod(hi * TWO128 + lo, hi' * TWO128 + lo', TWO256) ==
        (if lo > low then AddMod(up, 1, TWO128) else up) * TWO128 + low
  {}

  lemma {:induction false} SubHalves(hi: nat, lo: nat, hi': nat, lo': nat)
    requires hi < TWO128 && lo < TWO128 && hi' < TWO128 && lo' < TWO128
    ensures
      var up := SubMod(hi, hi', TWO128);
      var low := SubMod(lo, lo', TWO128);
      SubMod(hi * TWO128 + lo, hi' * TWO128 + lo', TWO256) ==
        (if low > lo then SubMod(up, 1, TWO128) else up) * TWO128 + low
  {}

  /** Addition and subtraction modulo 2^256; the target may be either operand. */
  method Add256(a: U256, b: U256, target: U256)
    modifies target
    ensures target.Value() == AddMod(old(a.Value()), old(b.Value()), TWO256)
  {
    AddHalves(a.upper.Value(), a.lower.Value(), b.upper.Value(), b.lower.Value());
    target.upper := Add128(a.upper, b.upper);
    var tmp := Add128(a.lower, b.lower);
    if Gt128(a.lower, tmp) {
      target.upper := Add128(target.upper, U128(0, 1));
    }
    target.lower := Add128(a.lower, b.lower);
  }

  method Minus256(a: U256, b: U256, target: U256)
    modifies target
    ensures target.Value() == SubMod(old(a.Value()), old(b.Value()), TWO256)
  {
    SubHalves(a.upper.Value(), a.lower.Value(), b.upper.Value(), b.lower.Value());
    target.upper := Minus128(a.upper, b.upper);
    var tmp := Minus128(a.lower, b.lower);
    if Gt128(tmp, a.lower) {
      target.upper := Minus128(target.upper, U128(0, 1));
    }
    target.lower := Minus128(a.lower, b.lower);
  }

  method Or256(a: U256, b: U256, target: U256)
    modifies target
    ensures target.Value() == BitOr(old(a.Value()), old(b.Value()))
  {
    ghost var hi, lo, hi', lo' := a.upper.Value(), a.lower.Value(), b.upper.Value(), b.lower.Value();
    target.upper := Or128(a.upper, b.upper);
    target.lower := Or128(a.lower, b.lower);
    assert target.upper.Value() == BitOr(hi, hi') && target.lower.Value() == BitOr(lo, lo');
    OrLimbs128(hi, lo, hi', lo');
  }

  // 256-bit shifts

  lemma {:induction false} ShiftLeft256Small(hi: nat, lo: nat, value: nat)
    requires hi < TWO128 && lo < TWO128 && 0 < value < 128
    ensures Shl(hi, value) % TWO128 + Shr(lo, 128 - value) < TWO128
    ensures Shl(hi * TWO128 + lo, value) % TWO256 ==
            (Shl(hi, value) % TWO128 + Shr(lo, 128 - value)) * TWO128 + Shl(lo, value) % TWO128
  {
    ShlIsPow(hi * TWO128 + lo, value);
    ShlIsPow(hi, value);
    ShlIsPow(lo, value);
    ShrIsDiv(lo, 128 - value);
    Factors128(value);
    ShiftLeftLimbs(hi, lo, TWO128, Pow(2, value), Pow(2, 128 - value));
  }

  lemma {:induction false} ShiftLeft256Large(hi: nat, lo: nat, value: nat)
    requires 128 <= value
    ensures Shl(hi * TWO128 + lo, value) % TWO256 == Shl(lo, value - 128) % TWO128 * TWO128
  {
    ShlIsPow(hi * TWO128 + lo, value);
    ShlIsPow(lo, value - 128);
    Factors128(value - 128);
    ShiftLeftWhole(hi, lo, TWO128, Pow(2, value - 128));
  }

  lemma {:induction false} ShiftLeft256Beyond(n: nat, value: nat)
    requires 256 <= value
    ensures Shl(n, value) % TWO256 == 0
  {
    ShlIsPow(n, value);
    Factors256(value - 256);
    ShiftLeftBeyond(n, TWO256, Pow(2, value - 256));
  }

  lemma {:induction false} ShiftLeft256Whole(hi: nat, lo: nat)
    requires lo < TWO128 && hi < TWO128
    ensures Shl(hi * TWO128 + lo, 128) % TWO256 == lo * TWO128
    ensures Shl(hi * TWO128 + lo, 0) % TWO256 == hi * TWO128 + lo
  {
    ShiftLeft256Large(hi, lo, 128);
    SmallMod(lo, TWO128);
    SmallMod(hi * TWO128 + lo, TWO256);
  }

  method ShiftLeft256(number: U256, value: nat, target: U256)
    modifies target
    ensures target.Value() == Shl(old(number.Value()), value) % TWO256
  {
    ghost var hi, lo := number.upper.Value(), number.lower.Value();
    if value >= 256 {
      ShiftLeft256Beyond(number.Value(), value);
      Clear256(target);
    } else if value == 128 {
      ShiftLeft256Whole(hi, lo);
      target.upper := number.lower;
      target.lower := U128(0, 0);
    } else if value == 0 {
      ShiftLeft256Whole(hi, lo);
      Copy256(target, number);
    } else if value < 128 {
      ShiftLeft256Small(hi, lo, value);
      var tmp1 := ShiftLeft128(number.upper, value);
      var tmp2 := ShiftRight128(number.lower, 128 - value);
      var result := new U256();
      result.upper := Add128(tmp1, tmp2);
      result.lower := ShiftLeft128(number.lower, value);
      Copy256(target, result);
    } else {
      ShiftLeft256Large(hi, lo, value);
      target.upper := ShiftLeft128(number.lower, value - 128);
      target.lower := U128(0, 0);
    }
  }

  lemma {:induction false} ShiftRight256Small(hi: nat, lo: nat, value: nat)
    requires hi < TWO128 && lo < TWO128 && 0 < value < 128
    ensures Shr(lo, value) + Shl(hi, 128 - value) % TWO128 < TWO128
    ensures Shr(hi * TWO128 + lo, value) ==
            Shr(hi, value) * TWO128 + (Shr(lo, value) + Shl(hi, 128 - value) % TWO128)
  {
    ShrIsDiv(hi * TWO128 + lo, value);
    ShrIsDiv(hi, value);
    ShrIsDiv(lo, value);
    ShlIsPow(hi, 128 - value);
    Factors128(value);
    ShiftRightLimbs(hi, lo, TWO128, Pow(2, value), Pow(2, 128 - value));
  }

  lemma {:induction false} ShiftRight256Large(hi: nat, lo: nat, value: nat)
    requires lo < TWO128 && 128 <= value
    ensures Shr(hi * TWO128 + lo, value) == Shr(hi, value - 128)
  {
    ShrIsDiv(hi * TWO128 + lo, value);
    ShrIsDiv(hi, value - 128);
    Factors128(value - 128);
    ShiftRightWhole(hi, lo, TWO128, Pow(2, value - 128));
  }

  lemma {:induction false} ShiftRight256Beyond(n: nat, value: nat)
    requires n < TWO256 && 256 <= value
    ensures Shr(n, value) == 0
  {
    ShrIsDiv(n, value);
    Factors256(value - 256);
    ShiftRightBeyond(n, TWO256, Pow(2, value - 256));
  }

  method ShiftRight256(number: U256, value: nat, target: U256)
    modifies target
    ensures target.Value() == Shr(old(number.Value()), value)
  {
    ghost var hi, lo := number.upper.Value(), number.lower.Value();
    if value >= 256 {
      ShiftRight256Beyond(number.Value(), value);
      Clear256(target);
    } else if value == 128 {
      ShiftRight256Large(hi, lo, value);
      target.lower := number.upper;
      target.upper := U128(0, 0);
    } else if value == 0 {
      Copy256(target, number);
    } else if value < 128 {
      ShiftRight256Small(hi, lo, value);
      var result := new U256();
      result.upper := ShiftRight128(number.upper, value);
      var tmp1 := ShiftRight128(number.lower, value);
      var tmp2 := ShiftLeft128(number.upper, 128 - value);
      result.lower := Add128(tmp1, tmp2);
      Copy256(target, result);
    } else {
      ShiftRight256Large(hi, lo, value);
      target.lower := ShiftRight128(number.upper, value - 128);
      target.upper := U128(0, 0);
    }
  }

  // Bit length

  function BitLen(n: nat): nat {
    if n == 0 then 0 else 1 + BitLen(n / 2)
  }

  lemma {:induction false} BitLenBound(n: nat, k: nat)
    ensures BitLen(n) <= k <==> n < Pow(2, k)
  {
    PowPositive(2, k);
    if n == 0 || k == 0 {
    } else {
      BitLenBound(n / 2, k - 1);
    }
  }

  lemma {:induction false} BitLenShr(n: nat, k: nat)
    requires Shr(n, k) > 0
    ensures BitLen(n) == k + BitLen(Shr(n, k))
  {
    if k == 0 {
    } else {
      if n == 0 {
        ShrAtMost(0, k);
      }
      BitLenShr(n / 2, k - 1);
    }
  }

  lemma {:induction false} BitLenShl(n: nat, k: nat)
    requires n > 0
    ensures Shl(n, k) > 0 && BitLen(Shl(n, k)) == BitLen(n) + k
  {
    if k == 0 {
    } else {
      BitLenShl(n, k - 1);
    }
  }

  lemma {:induction false} SameBitLen(a: nat, b: nat)
    requires BitLen(a) == BitLen(b) && b > 0
    ensures a < 2 * b
  {
    if b <= 1 || a == 0 {
    } else {
      SameBitLen(a / 2, b / 2);
    }
  }

  lemma {:induction false} BitLenMonotone(a: nat, b: nat)
    requires a <= b
    ensures BitLen(a) <= BitLen(b)
  {
    if a == 0 {
    } else {
      BitLenMonotone(a / 2, b / 2);
    }
  }

  lemma {:induction false} BitLen256(n: nat)
    ensures BitLen(n) <= 128 <==> n < TWO128
    ensures BitLen(n) <= 256 <==> n < TWO256
  {
    Pow2Words();
    BitLenBound(n, 128);
    BitLenBound(n, 256);
  }

  method Bits128(number: U128) returns (result: nat)
    ensures result == BitLen(number.Value())
  {
    result := 0;
    if number.upper != 0 {
      assert Shr(number.Value(), 64) == number.upper by {
        ShiftRight128Correct(number.upper, number.lower, 64);
        Shl64Zero(number.upper);
      }
      BitLenShr(number.Value(), 64);
      result := 64;
      var up := number.upper;
      while up != 0
        invariant result + BitLen(up) == BitLen(number.Value())
      {
        assert Shr64(up, 1) == Shr(up / 2, 0) == up / 2;
        up := Shr64(up, 1);
        result := result + 1;
      }
    } else {
      var low := number.lower;
      while low != 0
        invariant result + BitLen(low) == BitLen(number.Value())
      {
        assert Shr64(low, 1) == Shr(low / 2, 0) == low / 2;
        low := Shr64(low, 1);
        result := result + 1;
      }
    }
  }

  lemma {:induction false} Halving(n: nat)
    requires n > 0
    ensures Shr(n, 1) == n / 2 && BitLen(n) == 1 + BitLen(n / 2)
  {
    assert Shr(n, 1) == Shr(n / 2, 0);
  }

  /** A nonzero upper half decides the bit length, `k` being the bits of the lower half. */
  lemma {:induction false} UpperBits(hi: nat, lo: nat, k: nat)
    requires k == 128 && 0 < hi && lo < TWO128
    ensures BitLen(hi * TWO128 + lo) == k + BitLen(hi)
  {
    ShiftRight256Large(hi, lo, k);
    BitLenShr(hi * TWO128 + lo, k);
  }

  method Bits256(number: U256) returns (result: nat)
    ensures result == BitLen(number.Value())
  {
    ghost var n := number.Value();
    result := 0;
    if !Zero128(number.upper) {
      UpperBits(number.upper.Value(), number.lower.Value(), 128);
      result := 128;
      var up := number.upper;
      while !Zero128(up)
        invariant result + BitLen(up.Value()) == BitLen(n)
        decreases up.Value()
      {
        Halving(up.Value());
        up := ShiftRight128(up, 1);
        result := result + 1;
      }
    } else {
      var low := number.lower;
      while !Zero128(low)
        invariant result + BitLen(low.Value()) == BitLen(n)
        decreases low.Value()
      {
        Halving(low.Value());
        low := ShiftRight128(low, 1);
        result := result + 1;
      }
    }
  }

  // Long division

  /**
   * What every round of the long division keeps: dividend == quotient * divisor + remainder, the
   * subtrahend is the divisor shifted like the quotient bit `adder`, the remainder is below twice
   * the subtrahend, and the quotient has only bits above `adder`. Position -1 means done.
   */
  ghost predicate Dividing(l: nat, r: nat, copyd: nat, adder: nat, resMod: nat, resDiv: nat, k: int, high: nat) {
    && k >= -1
    && resDiv * r + resMod == l
    && if k == -1 then resMod < r
       else copyd == Shl(r, k) && adder == Shl(1, k) && resMod < 2 * copyd && resDiv == Shl(high, k + 1)
  }

  lemma {:induction false} ShlSuccessor(h: nat, k: nat)
    ensures Shl(h, k + 1) == Shl(2 * h, k) && Shl(2 * h + 1, k) == Shl(2 * h, k) + Shl(1, k)
  {
    if k == 0 {
    } else {
      ShlSuccessor(h, k - 1);
    }
  }

  lemma {:induction false} OrNewBit(high: nat, k: nat)
    ensures BitOr(Shl(high, k + 1), Shl(1, k)) == Shl(2 * high + 1, k)
    ensures Shl(high, k + 1) == Shl(2 * high, k)
    ensures BitOr(Shl(high, k + 1), Shl(1, k)) == Shl(high, k + 1) + Shl(1, k)
  {
    ShlSuccessor(high, k);
    ShlIsPow(high, k + 1);
    ShlIsPow(1, k);
    PowPositive(2, k);
    BitOrDisjoint(high, Shl(1, k), k + 1);
  }

  lemma {:induction false} ShlOneTimes(r: nat, k: nat)
    ensures Shl(1, k) * r == Shl(r, k)
  {
    ShlIsPow(1, k);
    ShlIsPow(r, k);
  }

  /** One round when the remainder still reaches the divisor. */
  lemma {:induction false} DivideRound(l: nat, r: nat, copyd: nat, adder: nat, resMod: nat, resDiv: nat, k: int,
                                       high: nat)
    requires r > 0 && resMod >= r
    requires Dividing(l, r, copyd, adder, resMod, resDiv, k, high)
    ensures k >= 0
    ensures resMod >= copyd ==>
              Dividing(l, r, copyd / 2, adder / 2, resMod - copyd, BitOr(resDiv, adder), k - 1, 2 * high + 1)
    ensures resMod < copyd ==> Dividing(l, r, copyd / 2, adder / 2, resMod, resDiv, k - 1, 2 * high)
  {
    OrNewBit(high, k);
    ShlOneTimes(r, k);
    AddToQuotient(resDiv, adder, r);
  }

  lemma {:induction false} AddToQuotient(q: int, a: int, r: int)
    ensures (q + a) * r == q * r + a * r
  {}

  /** The subtrahend starts with as many bits as the dividend, so neither it nor the first bit is cut off. */
  lemma {:induction false} DivideStartFits(l: nat, r: nat)
    requires 0 < r <= l < TWO256
    ensures BitLen(r) <= BitLen(l)
    ensures
      var k := BitLen(l) - BitLen(r);
      && Shl(r, k) < TWO256 && Shl(1, k) < TWO256
      && (l < TWO128 ==> Shl(r, k) < TWO128 && Shl(1, k) < TWO128)
      && l < 2 * Shl(r, k)
  {
    BitLenMonotone(r, l);
    ShiftedFits(l, r, BitLen(l) - BitLen(r));
    ShiftedFits(l, 1, BitLen(l) - BitLen(r));
    AlignedBelowTwice(l, r, BitLen(l) - BitLen(r));
  }

  lemma {:induction false} ShiftedFits(l: nat, n: nat, k: nat)
    requires n > 0 && BitLen(n) + k <= BitLen(l)
    ensures l < TWO128 ==> Shl(n, k) < TWO128
    ensures l < TWO256 ==> Shl(n, k) < TWO256
  {
    BitLenShl(n, k);
    FitsLike(Shl(n, k), l);
  }

  lemma {:induction false} AlignedBelowTwice(l: nat, r: nat, k: nat)
    requires r > 0 && BitLen(r) + k == BitLen(l)
    ensures l < 2 * Shl(r, k)
  {
    BitLenShl(r, k);
    SameBitLen(l, Shl(r, k));
  }

  lemma {:induction false} FitsLike(a: nat, l: nat)
    requires BitLen(a) <= BitLen(l)
    ensures (l < TWO128 ==> a < TWO128) && (l < TWO256 ==> a < TWO256)
  {
    BitLen256(a);
    BitLen256(l);
  }

  lemma {:induction false} DivideStart(l: nat, r: nat, k: nat)
    requires 0 < r <= l < 2 * Shl(r, k)
    ensures Shl(r, k) > l ==> Dividing(l, r, Shl(r, k) / 2, Shl(1, k) / 2, l, 0, k - 1, 0)
    ensures Shl(r, k) <= l ==> Dividing(l, r, Shl(r, k), Shl(1, k), l, 0, k, 0)
  {
    ShlZero(k);
    ShlZero(k + 1);
  }

  lemma {:induction false} ShlZero(k: nat)
    ensures Shl(0, k) == 0
  {
    if k == 0 {
    } else {
      ShlZero(k - 1);
    }
  }

  /** What the division leaves: the one quotient and remainder. */
  lemma {:induction false} DivideDone(l: nat, r: nat, copyd: nat, adder: nat, resMod: nat, resDiv: nat, k: int,
                                      high: nat)
    requires r > 0 && resMod < r
    requires Dividing(l, r, copyd, adder, resMod, resDiv, k, high)
    ensures resDiv == l / r && resMod == l % r
  {
    DivModUnique(l, r, resDiv, resMod);
  }

  method DivMod128(l: U128, r: U128) returns (retDiv: U128, retMod: U128)
    requires r.Value() != 0
    ensures retDiv.Value() == l.Value() / r.Value() && retMod.Value() == l.Value() % r.Value()
  {
    var lBits := Bits128(l);
    var rBits := Bits128(r);
    var resDiv, resMod := U128(0, 0), l;
    if Gt128(r, l) {
      SmallMod(l.Value(), r.Value());
      retMod := l;
      retDiv := U128(0, 0);
    } else {
      DivideStartFits(l.Value(), r.Value());
      var diffBits := lBits - rBits;
      var copyd := ShiftLeft128(r, diffBits);
      var adder := ShiftLeft128(U128(0, 1), diffBits);
      SmallMod(Shl(r.Value(), diffBits), TWO128);
      SmallMod(Shl(1, diffBits), TWO128);
      ghost var k: int, high: nat := diffBits, 0;
      DivideStart(l.Value(), r.Value(), diffBits);
      if Gt128(copyd, resMod) {
        copyd := Halve128(copyd);
        adder := Halve128(adder);
        k := k - 1;
      }
      while Gte128(resMod, r)
        invariant Dividing(l.Value(), r.Value(), copyd.Value(), adder.Value(), resMod.Value(), resDiv.Value(), k, high)
        decreases k
      {
        DivideRound(l.Value(), r.Value(), copyd.Value(), adder.Value(), resMod.Value(), resDiv.Value(), k, high);
        high := 2 * high;
        if Gte128(resMod, copyd) {
          resMod := Minus128(resMod, copyd);
          resDiv := Or128(resDiv, adder);
          high := high + 1;
        }
        copyd := Halve128(copyd);
        adder := Halve128(adder);
        k := k - 1;
      }
      DivideDone(l.Value(), r.Value(), copyd.Value(), adder.Value(), resMod.Value(), resDiv.Value(), k, high);
      retDiv := resDiv;
      retMod := resMod;
    }
  }

  method Halve128(n: U128) returns (half: U128)
    ensures half.Value() == n.Value() / 2
  {
    half := ShiftRight128(n, 1);
    assert Shr(n.Value(), 1) == Shr(n.Value() / 2, 0);
  }

  /** Shift by one in place, as the division loop does with its own copies. */
  method Halve256(n: U256)
    modifies n
    ensures n.Value() == old(n.Value()) / 2
  {
    ShiftRight256(n, 1, n);
    assert Shr(old(n.Value()), 1) == Shr(old(n.Value()) / 2, 0);
  }

  /**
   * Quotient and remainder, for every nonzero divisor. Either output may be the dividend or the
   * divisor itself.
   */
  method DivMod256(l: U256, r: U256, retDiv: U256, retMod: U256)
    requires r.Value() != 0 && retDiv != retMod
    modifies retDiv, retMod
    ensures retDiv.Value() == old(l.Value()) / old(r.Value())
    ensures retMod.Value() == old(l.Value()) % old(r.Value())
  {
    var lBits := Bits256(l);
    var rBits := Bits256(r);
    if Gt256(r, l) {
      SmallMod(l.Value(), r.Value());
      Copy256(retMod, l);
      Clear256(retDiv);
    } else {
      BitLenMonotone(r.Value(), l.Value());
      var resDiv, resMod := LongDivision(l, r, lBits - rBits);
      Copy256(retDiv, resDiv);
      Copy256(retMod, resMod);
    }
  }

  /** The branch of the division where the divisor does not exceed the dividend. */
  method LongDivision(l: U256, r: U256, diffBits: nat) returns (resDiv: U256, resMod: U256)
    requires 0 < r.Value() <= l.Value() && diffBits == BitLen(l.Value()) - BitLen(r.Value())
    ensures fresh(resDiv) && fresh(resMod) && resDiv != resMod
    ensures resDiv.Value() == l.Value() / r.Value() && resMod.Value() == l.Value() % r.Value()
  {
    ghost var n, d := l.Value(), r.Value();
    resDiv := new U256();
    resMod := new U256();
    Copy256(resMod, l);
    var copyd, adder;
    ghost var k: int, high: nat;
    copyd, adder, k := AlignDivisor(l, r, diffBits);
    high := 0;
    while Gte256(resMod, r)
      invariant fresh(copyd) && fresh(adder) && fresh(resDiv) && fresh(resMod)
      invariant copyd != adder && copyd != resDiv && copyd != resMod
      invariant adder != resDiv && adder != resMod && resDiv != resMod
      invariant Dividing(n, d, copyd.Value(), adder.Value(), resMod.Value(), resDiv.Value(), k, high)
      decreases k
    {
      k, high := DivisionRound(n, d, copyd, adder, resMod, resDiv, k, high);
    }
    DivideDone(n, d, copyd.Value(), adder.Value(), resMod.Value(), resDiv.Value(), k, high);
  }

  method StartDivision(l: U256, r: U256, diffBits: nat) returns (copyd: U256, adder: U256)
    requires 0 < r.Value() <= l.Value() && diffBits == BitLen(l.Value()) - BitLen(r.Value())
    ensures fresh(copyd) && fresh(adder) && copyd != adder
    ensures copyd.Value() == Shl(r.Value(), diffBits) && adder.Value() == Shl(1, diffBits)
    ensures l.Value() < 2 * copyd.Value()
  {
    ghost var n, d := l.Value(), r.Value();
    DivideStartFits(n, d);
    SmallMod(Shl(d, diffBits), TWO256);
    SmallMod(Shl(1, diffBits), TWO256);
    copyd := new U256();
    adder := new U256();
    var one := new U256();
    one.lower := U128(0, 1);
    assert one.Value() == 1;
    ShiftLeft256(r, diffBits, copyd);
    ShiftLeft256(one, diffBits, adder);
  }

  /** The subtrahend and quotient bit of the first round. */
  method AlignDivisor(l: U256, r: U256, diffBits: nat) returns (copyd: U256, adder: U256, ghost k: int)
    requires 0 < r.Value() <= l.Value() && diffBits == BitLen(l.Value()) - BitLen(r.Value())
    ensures fresh(copyd) && fresh(adder) && copyd != adder
    ensures Dividing(l.Value(), r.Value(), copyd.Value(), adder.Value(), l.Value(), 0, k, 0)
  {
    copyd, adder := StartDivision(l, r, diffBits);
    DivideStart(l.Value(), r.Value(), diffBits);
    k := diffBits;
    if Gt256(copyd, l) {
      Halve256(copyd);
      Halve256(adder);
      k := k - 1;
    }
  }

  method DivisionRound(ghost n: nat, ghost d: nat, copyd: U256, adder: U256, resMod: U256, resDiv: U256,
                       ghost k: int, ghost high: nat)
      returns (ghost k': int, ghost high': nat)
    requires copyd != adder && copyd != resDiv && copyd != resMod
    requires adder != resDiv && adder != resMod && resDiv != resMod
    requires d > 0 && resMod.Value() >= d
    requires Dividing(n, d, copyd.Value(), adder.Value(), resMod.Value(), resDiv.Value(), k, high)
    modifies copyd, adder, resMod, resDiv
    ensures k' == k - 1 && k >= 0
    ensures Dividing(n, d, copyd.Value(), adder.Value(), resMod.Value(), resDiv.Value(), k', high')
  {
    DivideRound(n, d, copyd.Value(), adder.Value(), resMod.Value(), resDiv.Value(), k, high);
    k', high' := k - 1, 2 * high;
    if Gte256(resMod, copyd) {
      Minus256(resMod, copyd, resMod);
      Or256(resDiv, adder, resDiv);
      high' := high' + 1;
    }
    Halve256(copyd);
    Halve256(adder);
  }
}
