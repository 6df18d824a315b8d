/** mul128 and mul256 of src/uint256.c: schoolbook multiplication by columns of half-limbs. */
module Multiply {
  import opened Arith
  import opened Wide

  /** Four digits, most significant first. */
  datatype Quad = Quad(d0: nat, d1: nat, d2: nat, d3: nat) {
    ghost predicate Below(base: nat) {
      d0 < base && d1 < base && d2 < base && d3 < base
    }

    function At(i: nat): nat
      requires i < 4
    {
      if i == 0 then d0 else if i == 1 then d1 else if i == 2 then d2 else d3
    }

    ghost function Value(base: nat): nat {
      d0 * (base * base * base) + d1 * (base * base) + d2 * base + d3
    }
  }

  lemma {:induction false} Row(t: nat, b: Quad, base: nat)
    ensures t * b.Value(base) ==
            t * b.d0 * (base * base * base) + t * b.d1 * (base * base) + t * b.d2 * base + t * b.d3
  {
    MulAssoc(t, b.d0, base * base * base);
    MulAssoc(t, b.d1, base * base);
    MulAssoc(t, b.d2, base);
    Distribute4(t, b.d0 * (base * base * base), b.d1 * (base * base), b.d2 * base, b.d3);
  }

  lemma {:induction false} Distribute4(t: int, a: int, b: int, c: int, d: int)
    ensures t * (a + b + c + d) == t * a + t * b + t * c + t * d
  {}

  /** A product by rows, one per digit of the first factor. */
  lemma {:induction false} Rows(a: Quad, n: nat, base: nat)
    ensures a.Value(base) * n ==
            a.d0 * n * (base * base * base) + a.d1 * n * (base * base) + a.d2 * n * base + a.d3 * n
  {
    var b2, b3 := base * base, base * base * base;
    Distribute4(n, a.d0 * b3, a.d1 * b2, a.d2 * base, a.d3);
    Commute3(n, a.d0, b3);
    Commute3(n, a.d1, b2);
    Commute3(n, a.d2, base);
  }

  lemma {:induction false} Commute3(n: int, d: int, w: int)
    ensures n * (d * w) == d * n * w
  {}

  // The column sums, as the code accumulates them

  function Lo(p: nat, base: nat): nat
    requires base > 0
  {
    p % base
  }

  function Hi(p: nat, base: nat): nat
    requires base > 0
  {
    p / base
  }

  function Column0(a: Quad, b: Quad, base: nat): nat
    requires base > 0
  {
    Lo(a.d3 * b.d3, base)
  }

  function Column1(a: Quad, b: Quad, base: nat): nat
    requires base > 0
  {
    Lo(a.d3 * b.d2, base) + Hi(a.d3 * b.d3, base) + Lo(a.d2 * b.d3, base)
  }

  function Column2(a: Quad, b: Quad, base: nat): nat
    requires base > 0
  {
    Lo(a.d3 * b.d1, base) + Hi(a.d3 * b.d2, base) + (Lo(a.d2 * b.d2, base) + Hi(a.d2 * b.d3, base)) +
    Lo(a.d1 * b.d3, base)
  }

  function Column3(a: Quad, b: Quad, base: nat): nat
    requires base > 0
  {
    Lo(a.d3 * b.d0, base) + Hi(a.d3 * b.d1, base) + (Lo(a.d2 * b.d1, base) + Hi(a.d2 * b.d2, base)) +
    (Lo(a.d1 * b.d2, base) + Hi(a.d1 * b.d3, base)) + Lo(a.d0 * b.d3, base)
  }

  /** The weighted column sums. */
  ghost function ColumnSum(c3: nat, c2: nat, c1: nat, c0: nat, base: nat): nat {
    c3 * (base * base * base) + c2 * (base * base) + c1 * base + c0
  }

  lemma {:induction false} Halves(p: nat, base: nat)
    requires base > 0
    ensures p == Hi(p, base) * base + Lo(p, base) && Lo(p, base) < base
  {}

  /** Splitting every partial product into a low and a high half moves weight between columns only. */
  lemma {:induction false} Regroup(p33: nat, p32: nat, p31: nat, p30: nat, p23: nat, p22: nat, p21: nat, p13: nat,
                                   p12: nat, p03: nat, base: nat)
    requires base == TWO32 || base == TWO64
    ensures
      p33 + (p32 + p23) * base + (p31 + p22 + p13) * (base * base) + (p30 + p21 + p12 + p03) * (base * base * base) ==
      ColumnSum(
        Lo(p30, base) + Hi(p31, base) + (Lo(p21, base) + Hi(p22, base)) + (Lo(p12, base) + Hi(p13, base)) +
        Lo(p03, base),
        Lo(p31, base) + Hi(p32, base) + (Lo(p22, base) + Hi(p23, base)) + Lo(p13, base),
        Lo(p32, base) + Hi(p33, base) + Lo(p23, base),
        Lo(p33, base), base) +
      (Hi(p30, base) + Hi(p21, base) + Hi(p12, base) + Hi(p03, base)) * (base * base * base * base)
  {
    Halves(p33, base);
    Halves(p32, base);
    Halves(p31, base);
    Halves(p30, base);
    Halves(p23, base);
    Halves(p22, base);
    Halves(p21, base);
    Halves(p13, base);
    Halves(p12, base);
    Halves(p03, base);
    RegroupHalves(
      Hi(p33, base), Lo(p33, base), Hi(p32, base), Lo(p32, base), Hi(p31, base), Lo(p31, base), Hi(p30, base),
      Lo(p30, base),
      Hi(p23, base), Lo(p23, base), Hi(p22, base), Lo(p22, base), Hi(p21, base), Lo(p21, base), Hi(p13, base),
      Lo(p13, base),
      Hi(p12, base), Lo(p12, base), Hi(p03, base), Lo(p03, base), base);
  }

  lemma {:induction false} RegroupHalves(
    h33: nat, l33: nat, h32: nat, l32: nat, h31: nat, l31: nat, h30: nat, l30: nat, h23: nat, l23: nat,
    h22: nat, l22: nat, h21: nat, l21: nat, h13: nat, l13: nat, h12: nat, l12: nat, h03: nat, l03: nat, b: nat)
    requires b == TWO32 || b == TWO64
    ensures
      (h33 * b + l33) + ((h32 * b + l32) + (h23 * b + l23)) * b +
      ((h31 * b + l31) + (h22 * b + l22) + (h13 * b + l13)) * (b * b) +
      ((h30 * b + l30) + (h21 * b + l21) + (h12 * b + l12) + (h03 * b + l03)) * (b * b * b) ==
      ColumnSum(l30 + h31 + (l21 + h22) + (l12 + h13) + l03, l31 + h32 + (l22 + h23) + l13, l32 + h33 + l23, l33, b) +
      (h30 + h21 + h12 + h03) * (b * b * b * b)
  {
    if b == TWO32 {
    } else {
    }
  }

  /** Partial products of weight base^4 and more, gathered. */
  lemma {:induction false} HighTerms(h: nat, p00: nat, p01: nat, p02: nat, p10: nat, p11: nat, p20: nat, base: nat)
    requires base == TWO32 || base == TWO64
    ensures
      h * (base * base * base * base) +
      p00 * (base * base * base) * (base * base * base) + (p01 + p10) * (base * base) * (base * base * base) +
      (p02 + p11 + p20) * base * (base * base * base) ==
      (h + p00 * (base * base) + (p01 + p10) * base + (p02 + p11 + p20)) * (base * base * base * base)
  {}

  /** Four rows added up, by weight. */
  lemma {:induction false} AddRows(r0: nat, r1: nat, r2: nat, r3: nat, p: seq<Quad>, base: nat)
    requires base == TWO32 || base == TWO64
    requires |p| == 4
    requires r0 == p[0].Value(base) && r1 == p[1].Value(base) && r2 == p[2].Value(base) && r3 == p[3].Value(base)
    ensures
      r0 * (base * base * base) + r1 * (base * base) + r2 * base + r3 ==
      p[3].d3 + (p[3].d2 + p[2].d3) * base + (p[3].d1 + p[2].d2 + p[1].d3) * (base * base) +
      (p[3].d0 + p[2].d1 + p[1].d2 + p[0].d3) * (base * base * base) +
      p[0].d0 * (base * base * base) * (base * base * base) +
      (p[0].d1 + p[1].d0) * (base * base) * (base * base * base) +
      (p[0].d2 + p[1].d1 + p[2].d0) * base * (base * base * base)
  {
    if base == TWO32 {
    } else {
    }
  }

  function Scaled(t: nat, b: Quad): Quad {
    Quad(t * b.d0, t * b.d1, t * b.d2, t * b.d3)
  }

  /** The product equals the weighted column sums up to a multiple of base^4. */
  lemma {:induction false} ProductByColumns(a: Quad, b: Quad, base: nat) returns (k: nat)
    requires base == TWO32 || base == TWO64
    ensures a.Value(base) * b.Value(base) ==
            ColumnSum(Column3(a, b, base), Column2(a, b, base), Column1(a, b, base), Column0(a, b, base), base) +
            k * (base * base * base * base)
  {
    var n := b.Value(base);
    Rows(a, n, base);
    Row(a.d0, b, base);
    Row(a.d1, b, base);
    Row(a.d2, b, base);
    Row(a.d3, b, base);
    var p := [Scaled(a.d0, b), Scaled(a.d1, b), Scaled(a.d2, b), Scaled(a.d3, b)];
    AddRows(a.d0 * n, a.d1 * n, a.d2 * n, a.d3 * n, p, base);
    k := GatherColumns(p, base);
  }

  lemma {:induction false} GatherColumns(p: seq<Quad>, base: nat) returns (k: nat)
    requires base == TWO32 || base == TWO64
    requires |p| == 4
    ensures
      p[3].d3 + (p[3].d2 + p[2].d3) * base + (p[3].d1 + p[2].d2 + p[1].d3) * (base * base) +
      (p[3].d0 + p[2].d1 + p[1].d2 + p[0].d3) * (base * base * base) +
      p[0].d0 * (base * base * base) * (base * base * base) +
      (p[0].d1 + p[1].d0) * (base * base) * (base * base * base) +
      (p[0].d2 + p[1].d1 + p[2].d0) * base * (base * base * base) ==
      ColumnSum(
        Lo(p[3].d0, base) + Hi(p[3].d1, base) + (Lo(p[2].d1, base) + Hi(p[2].d2, base)) +
          (Lo(p[1].d2, base) + Hi(p[1].d3, base)) + Lo(p[0].d3, base),
        Lo(p[3].d1, base) + Hi(p[3].d2, base) + (Lo(p[2].d2, base) + Hi(p[2].d3, base)) + Lo(p[1].d3, base),
        Lo(p[3].d2, base) + Hi(p[3].d3, base) + Lo(p[2].d3, base),
        Lo(p[3].d3, base), base) + k * (base * base * base * base)
  {
    Regroup(p[3].d3, p[3].d2, p[3].d1, p[3].d0, p[2].d3, p[2].d2, p[2].d1, p[1].d3, p[1].d2, p[0].d3, base);
    var h := Hi(p[3].d0, base) + Hi(p[2].d1, base) + Hi(p[1].d2, base) + Hi(p[0].d3, base);
    HighTerms(h, p[0].d0, p[0].d1, p[0].d2, p[1].d0, p[1].d1, p[2].d0, base);
    k := h + p[0].d0 * (base * base) + (p[0].d1 + p[1].d0) * base + (p[0].d2 + p[1].d1 + p[2].d0);
  }

  // mul128

  lemma {:induction false} ProductFits(x: nat, y: nat)
    ensures x < TWO32 && y < TWO32 ==> x * y < TWO64
    ensures x < TWO64 && y < TWO64 ==> x * y < TWO128
  {
    if x < TWO32 && y < TWO32 {
      MulLe(x, TWO32 - 1, y);
    } else if x < TWO64 && y < TWO64 {
      MulLe(x, TWO64 - 1, y);
    }
  }

  /** All sixteen products of 32-bit digits, the row of the least significant digit first. */
  method Products32(top: Quad, bottom: Quad) returns (products: array2<u64>)
    requires top.Below(TWO32) && bottom.Below(TWO32)
    ensures products.Length0 == 4 && products.Length1 == 4
    ensures forall i, y :: 0 <= i < 4 && 0 <= y < 4 ==> products[i, y] == top.At(3 - i) * bottom.At(y)
  {
    products := new u64[4, 4];
    for y := 4 downto 0
      invariant forall i, j :: 0 <= i < 4 && y <= j < 4 ==> products[i, j] == top.At(3 - i) * bottom.At(j)
    {
      for x := 4 downto 0
        invariant forall i, j :: 0 <= i < 4 && y < j < 4 ==> products[i, j] == top.At(3 - i) * bottom.At(j)
        invariant forall i :: 0 <= i < 4 - x ==> products[i, y] == top.At(3 - i) * bottom.At(y)
      {
        ProductFits(top.At(x), bottom.At(y));
        products[3 - x, y] := top.At(x) * bottom.At(y);
      }
    }
  }

  function Digits32(n: U128): Quad {
    Quad(n.upper / TWO32, n.upper % TWO32, n.lower / TWO32, n.lower % TWO32)
  }

  lemma {:induction false} Digits32Value(n: U128)
    ensures Digits32(n).Below(TWO32) && Digits32(n).Value(TWO32) == n.Value()
  {}

  lemma {:induction false} Shift32(x: u64)
    ensures Shl64(x, 32) == x % TWO32 * TWO32
    ensures Shr64(x, 32) == x / TWO32
  {
    Pow2Words();
    ShlIsPow(x, 32);
    ShrIsDiv(x, 32);
  }

  method Mul128(a: U128, b: U128) returns (target: U128)
    ensures target.Value() == a.Value() * b.Value() % TWO128
  {
    var top, bottom := Digits32(a), Digits32(b);
    Digits32Value(a);
    Digits32Value(b);
    var products := Products32(top, bottom);
    var fourth32, third32, second32, first32 := Columns32(products);
    target := AssembleColumns32(fourth32, third32, second32, first32);
    ProductModulo32(top, bottom, first32, second32, third32, fourth32, target.Value());
  }

  method AssembleColumns32(fourth32: u64, third32: u64, second32: u64, first32: u64) returns (target: U128)
    ensures Wrapped32(target.Value(), first32, second32, third32, fourth32)
  {
    Shift32(first32);
    Shift32(third32);
    target := Add128(U128(Shl64(first32, 32), 0), U128(Shr64(third32, 32), Shl64(third32, 32)));
    var tmp2 := Add128(U128(second32, 0), target);
    target := Add128(U128(0, fourth32), tmp2);
  }

  /** The three additions that put the columns together. */
  ghost predicate Wrapped32(target: nat, c3: u64, c2: u64, c1: u64, c0: u64) {
    target == AddMod(c0, AddMod(c2 * TWO64, AddMod(c3 % TWO32 * TWO32 * TWO64, c1 * TWO32, TWO128), TWO128), TWO128)
  }

  lemma {:induction false} ProductModulo32(top: Quad, bottom: Quad, c3: u64, c2: u64, c1: u64, c0: u64, target: nat)
    requires c3 == Column3(top, bottom, TWO32) && c2 == Column2(top, bottom, TWO32)
    requires c1 == Column1(top, bottom, TWO32) && c0 == Column0(top, bottom, TWO32)
    requires Wrapped32(target, c3, c2, c1, c0)
    ensures target == top.Value(TWO32) * bottom.Value(TWO32) % TWO128
  {
    var k := ProductByColumns(top, bottom, TWO32);
    WrapColumns32(c3 / TWO32, c3 % TWO32, c2, c1, c0, k, target, top.Value(TWO32) * bottom.Value(TWO32));
  }

  lemma {:induction false} WrapColumns32(h3: nat, l3: nat, c2: u64, c1: u64, c0: u64, k: nat, target: nat, product: nat)
    requires l3 < TWO32
    requires target == AddMod(c0, AddMod(c2 * TWO64, AddMod(l3 * TWO32 * TWO64, c1 * TWO32, TWO128), TWO128), TWO128)
    requires product == ColumnSum(h3 * TWO32 + l3, c2, c1, c0, TWO32) + k * TWO128
    ensures target == product % TWO128
  {
    var y0, y1, y2 := l3 * TWO32 * TWO64, c1 * TWO32, c2 * TWO64;
    assert product == (k + h3) * TWO128 + (y0 + y1 + y2 + c0);
    AddThree(y0, y1, y2, c0, TWO128);
    ModAddMultiple(y0 + y1 + y2 + c0, k + h3, TWO128);
  }

  /** Whether a wrapping addition wraps. */
  ghost function Wrap(a: nat, b: nat, m: nat): nat {
    if a + b < m then 0 else 1
  }

  method Columns32(products: array2<u64>) returns (fourth32: u64, third32: u64, second32: u64, first32: u64)
    requires products.Length0 == 4 && products.Length1 == 4
    ensures fourth32 == Lo(products[0, 3], TWO32)
    ensures third32 == Lo(products[0, 2], TWO32) + Hi(products[0, 3], TWO32) + Lo(products[1, 3], TWO32)
    ensures second32 == Lo(products[0, 1], TWO32) + Hi(products[0, 2], TWO32) +
                        (Lo(products[1, 2], TWO32) + Hi(products[1, 3], TWO32)) + Lo(products[2, 3], TWO32)
    ensures first32 == Lo(products[0, 0], TWO32) + Hi(products[0, 1], TWO32) +
                       (Lo(products[1, 1], TWO32) + Hi(products[1, 2], TWO32)) +
                       (Lo(products[2, 2], TWO32) + Hi(products[2, 3], TWO32)) + Lo(products[3, 3], TWO32)
  {
    fourth32 := products[0, 3] % TWO32;
    third32 := products[0, 2] % TWO32 + products[0, 3] / TWO32;
    second32 := products[0, 1] % TWO32 + products[0, 2] / TWO32;
    first32 := products[0, 0] % TWO32 + products[0, 1] / TWO32;

    third32 := third32 + products[1, 3] % TWO32;
    second32 := second32 + (products[1, 2] % TWO32 + products[1, 3] / TWO32);
    first32 := first32 + (products[1, 1] % TWO32 + products[1, 2] / TWO32);

    second32 := second32 + products[2, 3] % TWO32;
    first32 := first32 + (products[2, 2] % TWO32 + products[2, 3] / TWO32);

    first32 := first32 + products[3, 3] % TWO32;
  }

  // mul256

  const TWO192: int := TWO64 * TWO128

  function Digits64(upper: U128, lower: U128): Quad {
    Quad(upper.upper, upper.lower, lower.upper, lower.lower)
  }

  lemma {:induction false} Digits64Value(upper: U128, lower: U128)
    ensures Digits64(upper, lower).Below(TWO64)
    ensures Digits64(upper, lower).Value(TWO64) == upper.Value() * TWO128 + lower.Value()
  {}

  method Products64(top: Quad, bottom: Quad) returns (products: array2<U128>)
    requires top.Below(TWO64) && bottom.Below(TWO64)
    ensures fresh(products) && products.Length0 == 4 && products.Length1 == 4
    ensures forall i, y :: 0 <= i < 4 && 0 <= y < 4 ==> products[i, y].Value() == top.At(3 - i) * bottom.At(y)
  {
    products := new U128[4, 4];
    for y := 4 downto 0
      invariant forall i, j :: 0 <= i < 4 && y <= j < 4 ==> products[i, j].Value() == top.At(3 - i) * bottom.At(j)
    {
      for x := 4 downto 0
        invariant forall i, j :: 0 <= i < 4 && y < j < 4 ==> products[i, j].Value() == top.At(3 - i) * bottom.At(j)
        invariant forall i :: 0 <= i < 4 - x ==> products[i, y].Value() == top.At(3 - i) * bottom.At(y)
      {
        products[3 - x, y] := LimbProduct(top.At(x), bottom.At(y));
      }
    }
  }

  method LimbProduct(x: u64, y: u64) returns (p: U128)
    ensures p.Value() == x * y
  {
    p := Mul128(U128(0, x), U128(0, y));
    ProductFits(x, y);
    SmallMod(x * y, TWO128);
  }

  /** Adds one limb to a column accumulator. */
  method AddLimb(limb: u64, column: U128) returns (sum: U128)
    requires column.Value() + limb < TWO128
    ensures sum.Value() == column.Value() + limb
  {
    sum := Add128(U128(0, limb), column);
  }

  lemma {:induction false} LimbsOf(p: U128)
    ensures p.lower == Lo(p.Value(), TWO64) && p.upper == Hi(p.Value(), TWO64)
  {}

  method Columns64(products: array2<U128>) returns (fourth64: U128, third64: U128, second64: U128, first64: U128)
    requires products.Length0 == 4 && products.Length1 == 4
    ensures fourth64.Value() == products[0, 3].lower
    ensures third64.Value() == products[0, 2].lower + products[0, 3].upper + products[1, 3].lower
    ensures second64.Value() == products[0, 1].lower + products[0, 2].upper +
                                (products[1, 2].lower + products[1, 3].upper) + products[2, 3].lower
    ensures first64.Value() == products[0, 0].lower + products[0, 1].upper +
                               (products[1, 1].lower + products[1, 2].upper) +
                               (products[2, 2].lower + products[2, 3].upper) + products[3, 3].lower
  {
    fourth64 := U128(0, products[0, 3].lower);
    third64 := AddLimb(products[0, 2].lower, U128(0, products[0, 3].upper));
    second64 := AddLimb(products[0, 1].lower, U128(0, products[0, 2].upper));
    first64 := AddLimb(products[0, 0].lower, U128(0, products[0, 1].upper));

    third64 := AddLimb(products[1, 3].lower, third64);
    second64 := AddLimb(products[1, 2].lower, second64);
    second64 := AddLimb(products[1, 3].upper, second64);
    first64 := AddLimb(products[1, 1].lower, first64);
    first64 := AddLimb(products[1, 2].upper, first64);

    second64 := AddLimb(products[2, 3].lower, second64);
    first64 := AddLimb(products[2, 2].lower, first64);
    first64 := AddLimb(products[2, 3].upper, first64);

    first64 := AddLimb(products[3, 3].lower, first64);
  }

  /** The four columns of the product of two 256-bit numbers. */
  method ProductColumns(a: Quad, b: Quad) returns (fourth64: U128, third64: U128, second64: U128, first64: U128)
    requires a.Below(TWO64) && b.Below(TWO64)
    ensures fourth64.Value() == Column0(a, b, TWO64) && third64.Value() == Column1(a, b, TWO64)
    ensures second64.Value() == Column2(a, b, TWO64) && first64.Value() == Column3(a, b, TWO64)
  {
    var products := Products64(a, b);
    forall i, y | 0 <= i < 4 && 0 <= y < 4
      ensures products[i, y].lower == Lo(a.At(3 - i) * b.At(y), TWO64)
      ensures products[i, y].upper == Hi(a.At(3 - i) * b.At(y), TWO64)
    {
      LimbsOf(products[i, y]);
    }
    fourth64, third64, second64, first64 := Columns64(products);
  }

  /** The carry that the column of weight 2^64 passes on: 0, 1 or 2. */
  ghost function ThirdCarry(a: Quad, b: Quad): nat {
    Column1(a, b, TWO64) / TWO64
  }

  /**
   * The product modulo 2^256, plus the error of adding the carry of the 2^64 column at weight
   * 2^192 instead of 2^128.
   */
  method Mul256(a: U256, b: U256, target: U256)
    modifies target
    ensures target.Value() ==
            (old(a.Value()) * old(b.Value()) +
             ThirdCarry(old(Digits64(a.upper, a.lower)), old(Digits64(b.upper, b.lower))) * (TWO192 - TWO128)) % TWO256
  {
    Digits64Value(a.upper, a.lower);
    Digits64Value(b.upper, b.lower);
    MulDigits(Digits64(a.upper, a.lower), Digits64(b.upper, b.lower), target);
  }

  method MulDigits(top: Quad, bottom: Quad, target: U256)
    requires top.Below(TWO64) && bottom.Below(TWO64)
    modifies target
    ensures target.Value() == (top.Value(TWO64) * bottom.Value(TWO64) +
                               ThirdCarry(top, bottom) * (TWO192 - TWO128)) % TWO256
  {
    var fourth64, third64, second64, first64 := ProductColumns(top, bottom);
    AssembleColumns64(fourth64, third64, second64, first64, target);
    ProductModulo64(top, bottom, first64.Value(), second64.Value(), third64.Value(), fourth64.Value(), target.Value());
  }

  method AssembleColumns64(fourth64: U128, third64: U128, second64: U128, first64: U128, target: U256)
    modifies target
    ensures Wrapped64(target.Value(), first64.Value(), second64.Value(), third64.Value(), fourth64.Value())
  {
    var target1 := new U256();
    var target2 := new U256();
    HighColumns(first64, third64, target1, target2);
    Add256(target1, target2, target);
    ghost var x := target.Value();
    Clear256(target1);
    target1.upper := second64;
    assert target1.Value() == second64.Value() * TWO128;
    Add256(target1, target, target2);
    ghost var y := target2.Value();
    assert y == AddMod(second64.Value() * TWO128, x, TWO256);
    Clear256(target1);
    target1.lower := fourth64;
    assert target1.Value() == fourth64.Value();
    Add256(target1, target2, target);
  }

  method HighColumns(first64: U128, third64: U128, target1: U256, target2: U256)
    requires target1 != target2 && target1.lower == U128(0, 0)
    modifies target1, target2
    ensures target1.Value() == first64.Value() % TWO64 * TWO64 * TWO128
    ensures target2.Value() == third64.Value() / TWO64 * TWO192 + third64.Value() % TWO64 * TWO64
  {
    Shift64(first64);
    Shift64(third64);
    target1.upper := ShiftLeft128(first64, 64);
    target2.upper := U128(third64.upper, 0);
    target2.lower := ShiftLeft128(third64, 64);
  }

  ghost predicate Wrapped64(target: nat, c3: nat, c2: nat, c1: nat, c0: nat)
    requires c3 < TWO128 && c2 < TWO128 && c1 < TWO128 && c0 < TWO128
  {
    target == AddMod(c0, AddMod(c2 * TWO128,
      AddMod(c3 % TWO64 * TWO64 * TWO128, c1 / TWO64 * TWO192 + c1 % TWO64 * TWO64, TWO256), TWO256), TWO256)
  }

  lemma {:induction false} ProductModulo64(top: Quad, bottom: Quad, c3: nat, c2: nat, c1: nat, c0: nat, target: nat)
    requires c3 == Column3(top, bottom, TWO64) && c2 == Column2(top, bottom, TWO64)
    requires c1 == Column1(top, bottom, TWO64) && c0 == Column0(top, bottom, TWO64)
    requires c3 < TWO128 && c2 < TWO128 && c1 < TWO128 && c0 < TWO128
    requires Wrapped64(target, c3, c2, c1, c0)
    ensures target == (top.Value(TWO64) * bottom.Value(TWO64) + ThirdCarry(top, bottom) * (TWO192 - TWO128)) % TWO256
  {
    var k := ProductByColumns(top, bottom, TWO64);
    WrapColumns64(c3 / TWO64, c3 % TWO64, c2, c1 / TWO64, c1 % TWO64, c0, k, target,
                  top.Value(TWO64) * bottom.Value(TWO64));
  }

  lemma {:induction false} WrapColumns64(h3: nat, l3: nat, c2: nat, h1: nat, l1: nat, c0: nat, k: nat, target: nat,
                                         product: nat)
    requires l3 < TWO64 && c2 < TWO128 && h1 < TWO64 && l1 < TWO64 && c0 < TWO128
    requires target == AddMod(c0,
               AddMod(c2 * TWO128, AddMod(l3 * TWO64 * TWO128, h1 * TWO192 + l1 * TWO64, TWO256), TWO256), TWO256)
    requires product == ColumnSum(h3 * TWO64 + l3, c2, h1 * TWO64 + l1, c0, TWO64) + k * TWO256
    ensures target == (product + h1 * (TWO192 - TWO128)) % TWO256
  {
    var y0, y1, y2 := l3 * TWO64 * TWO128, h1 * TWO192 + l1 * TWO64, c2 * TWO128;
    ColumnsMoved(h3, l3, c2, h1, l1, c0, k);
    AddThree(y0, y1, y2, c0, TWO256);
    ModAddMultiple(y0 + y1 + y2 + c0, k + h3, TWO256);
  }

  /** The carry of the third column counts at 2^192 instead of 2^128. */
  lemma {:induction false} ColumnsMoved(h3: nat, l3: nat, c2: nat, h1: nat, l1: nat, c0: nat, k: nat)
    ensures ColumnSum(h3 * TWO64 + l3, c2, h1 * TWO64 + l1, c0, TWO64) + k * TWO256 + h1 * (TWO192 - TWO128) ==
            (l3 * TWO64 * TWO128 + (h1 * TWO192 + l1 * TWO64) + c2 * TWO128 + c0) + (k + h3) * TWO256
  {}

  /** Three wrapping additions in a row. */
  lemma {:induction false} AddThree(a: nat, b: nat, c: nat, d: nat, m: nat)
    requires a < m && b < m && c < m && d < m
    ensures AddMod(d, AddMod(c, AddMod(a, b, m), m), m) == (a + b + c + d) % m
  {
    var x := AddMod(a, b, m);
    var y := AddMod(c, x, m);
    var wraps := Wrap(a, b, m) + Wrap(c, x, m) + Wrap(d, y, m);
    assert wraps == 0 || wraps == 1 || wraps == 2 || wraps == 3;
    DivModUnique(a + b + c + d, m, wraps, AddMod(d, y, m));
  }

  lemma {:induction false} Shift64(n: U128)
    ensures Shl(n.Value(), 64) % TWO128 == n.Value() % TWO64 * TWO64
    ensures n.upper == n.Value() / TWO64
  {
    ShiftLeft128Large(n.upper, n.lower, 64);
    Shl64Zero(n.lower);
  }

  // When mul256 is a multiplication

  lemma {:induction false} CarryAtMostTwo(a: Quad, b: Quad)
    requires a.Below(TWO64) && b.Below(TWO64)
    ensures ThirdCarry(a, b) <= 2
  {
    ProductFits(a.d3, b.d3);
  }

  lemma {:induction false} SameRemainder(p: nat, e: nat, m: nat)
    requires 0 <= e < m
    ensures (p + e) % m == p % m <==> e == 0
  {
    var q, r := p / m, p % m;
    if r + e < m {
      DivModUnique(p + e, m, q, r + e);
    } else {
      assert p + e == (q + 1) * m + (r + e - m);
      DivModUnique(p + e, m, q + 1, r + e - m);
    }
  }

  /**
   * The result of mul256 is the product modulo 2^256 if and only if the column of weight 2^64
   * stays below 2^64.
   */
  lemma {:induction false} Mul256ExactIff(a: Quad, b: Quad)
    requires a.Below(TWO64) && b.Below(TWO64)
    ensures (a.Value(TWO64) * b.Value(TWO64) + ThirdCarry(a, b) * (TWO192 - TWO128)) % TWO256 ==
            a.Value(TWO64) * b.Value(TWO64) % TWO256
            <==> Column1(a, b, TWO64) < TWO64
  {
    CarryAtMostTwo(a, b);
    SameRemainder(a.Value(TWO64) * b.Value(TWO64), ThirdCarry(a, b) * (TWO192 - TWO128), TWO256);
  }

  /** (2^64 - 1) * (2^65 - 1) is a product that mul256 gets wrong although it fits. */
  lemma {:induction false} Mul256Inexact()
    ensures
      var a, b := Quad(0, 0, 0, TWO64 - 1), Quad(0, 0, 1, TWO64 - 1);
      && a.Value(TWO64) * b.Value(TWO64) < TWO256
      && (a.Value(TWO64) * b.Value(TWO64) + ThirdCarry(a, b) * (TWO192 - TWO128)) % TWO256 !=
         a.Value(TWO64) * b.Value(TWO64)
  {
    var a, b := Quad(0, 0, 0, TWO64 - 1), Quad(0, 0, 1, TWO64 - 1);
    var p := (TWO64 - 1) * (2 * TWO64 - 1);
    assert a.Value(TWO64) == TWO64 - 1 && b.Value(TWO64) == 2 * TWO64 - 1;
    DivModUnique((TWO64 - 1) * (TWO64 - 1), TWO64, TWO64 - 2, 1);
    Mul256ExactIff(a, b);
    SmallMod(p, TWO256);
  }
}
