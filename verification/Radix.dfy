/** Reading big-endian bytes into a 256-bit number and printing it in a radix (src/uint256.c). */
module Radix {
  import opened Arith
  import opened Wide

  // Big-endian bytes

  function BigEndian(s: seq<byte>): nat {
    if s == [] then 0 else BigEndian(s[..|s| - 1]) * 256 + s[|s| - 1]
  }

  lemma {:induction false} BigEndianConcat(a: seq<byte>, b: seq<byte>)
    ensures BigEndian(a + b) == BigEndian(a) * Pow(256, |b|) + BigEndian(b)
  {
    if b == [] {
      assert a + b == a;
    } else {
      var c, n := b[..|b| - 1], |b| - 1;
      assert (a + b)[..|a + b| - 1] == a + c;
      BigEndianConcat(a, c);
      MulAssoc(BigEndian(a), Pow(256, n), 256);
      assert Pow(256, |b|) == Pow(256, n) * 256;
    }
  }

  lemma {:induction false} LeadingZeros(n: nat, s: seq<byte>)
    ensures BigEndian(seq(n, _ => 0) + s) == BigEndian(s)
  {
    BigEndianConcat(seq(n, _ => 0), s);
    ZerosAreZero(n);
  }

  lemma {:induction false} ZerosAreZero(n: nat)
    ensures BigEndian(seq(n, _ => 0)) == 0
  {
    if n == 0 {
    } else {
      assert seq(n, _ => 0)[..n - 1] == seq(n - 1, _ => 0);
      ZerosAreZero(n - 1);
    }
  }

  /** Eight bytes, combined by shifts; the byte ranges are disjoint, so OR is addition. */
  method ReadUint64BE(buffer: seq<byte>) returns (n: u64)
    requires |buffer| >= 8
    ensures n == BigEndian(buffer[..8])
  {
    n := 0;
    for i := 0 to 8
      invariant n == BigEndian(buffer[..i]) < Pow(256, i)
    {
      assert buffer[..i + 1][..i] == buffer[..i];
      LimbRoom(i + 1);
      n := n * 256 + buffer[i];
    }
  }

  lemma {:induction false} LimbRoom(i: nat)
    requires 1 <= i <= 8
    ensures Pow(256, i) == 256 * Pow(256, i - 1) && Pow(256, i) <= TWO64
  {
    PowMonotone(256, i, 8);
    assert Pow(256, 8) == TWO64;
  }

  method ReadU128BE(buffer: seq<byte>) returns (n: U128)
    requires |buffer| >= 16
    ensures n.Value() == BigEndian(buffer[..16])
  {
    var upper := ReadUint64BE(buffer);
    var lower := ReadUint64BE(buffer[8..]);
    n := U128(upper, lower);
    assert buffer[..16] == buffer[..8] + buffer[8..][..8];
    JoinWords(buffer[..8], buffer[8..][..8]);
  }

  lemma {:induction false} JoinWords(a: seq<byte>, b: seq<byte>)
    ensures |b| == 8 ==> BigEndian(a + b) == BigEndian(a) * TWO64 + BigEndian(b)
    ensures |b| == 16 ==> BigEndian(a + b) == BigEndian(a) * TWO128 + BigEndian(b)
  {
    BigEndianConcat(a, b);
    Pow256();
  }

  /** Up to 32 bytes, padded on the left. */
  method ConvertUint256BE(data: seq<byte>, target: U256)
    requires |data| <= 32
    modifies target
    ensures target.Value() == BigEndian(data)
  {
    var tmp := seq(32 - |data|, _ => 0) + data;
    target.upper := ReadU128BE(tmp);
    target.lower := ReadU128BE(tmp[16..]);
    assert tmp == tmp[..16] + tmp[16..][..16];
    JoinWords(tmp[..16], tmp[16..][..16]);
    LeadingZeros(32 - |data|, data);
  }

  lemma {:induction false} Pow256()
    ensures Pow(256, 8) == TWO64 && Pow(256, 16) == TWO128
  {
    assert Pow(256, 8) == TWO64;
    PowAdd(256, 8, 8);
  }

  // Numerals

  const HEXDIGITS: string := "0123456789abcdef"

  /** The numeral of `v`, most significant digit first, without leading zeros. */
  function Numeral(v: nat, base: nat): (s: string)
    requires 2 <= base <= 16
    ensures |s| >= 1
  {
    QuotientSmaller(v, base);
    if v < base then [HEXDIGITS[v]] else Numeral(v / base, base) + [HEXDIGITS[v % base]]
  }

  lemma {:induction false} QuotientSmaller(v: nat, base: nat)
    requires 2 <= base
    ensures v % base < base && 0 <= v / base
    ensures v >= base ==> 0 < v / base < v
    ensures v < base ==> v / base == 0 && v % base == v
  {
    DivMul(v, base);
    if v < base {
      SmallMod(v, base);
    } else if v / base >= v {
      MulLe(v, v / base, base);
      MulLe(2, base, v);
    }
  }

  predicate IsDigit(c: char, base: nat)
    requires base <= 16
  {
    exists d :: 0 <= d < base && HEXDIGITS[d] == c
  }

  function DigitValue(c: char): nat {
    if '0' <= c <= '9' then (c - '0') as int
    else if 'a' <= c <= 'f' then (c - 'a') as int + 10
    else 0
  }

  /** The number a string of digits denotes. */
  function NumeralValue(s: string, base: nat): nat {
    if s == "" then 0 else NumeralValue(s[..|s| - 1], base) * base + DigitValue(s[|s| - 1])
  }

  lemma {:induction false} DigitOf(d: nat)
    requires d < 16
    ensures DigitValue(HEXDIGITS[d]) == d
    ensures d > 0 ==> HEXDIGITS[d] != '0'
  {
    if d < 8 {
      assert HEXDIGITS[..8] == "01234567";
      assert HEXDIGITS[d] == HEXDIGITS[..8][d];
    } else {
      assert HEXDIGITS[8..] == "89abcdef";
      assert HEXDIGITS[d] == HEXDIGITS[8..][d - 8];
    }
  }

  /** A numeral denotes its number, and is canonical. */
  lemma {:induction false} NumeralDenotes(v: nat, base: nat)
    requires 2 <= base <= 16
    ensures NumeralValue(Numeral(v, base), base) == v
  {
    QuotientSmaller(v, base);
    DigitOf(v % base);
    var s := Numeral(v, base);
    assert s[|s| - 1] == HEXDIGITS[v % base];
    if v < base {
      assert s[..|s| - 1] == "";
    } else {
      NumeralDenotes(v / base, base);
      assert s[..|s| - 1] == Numeral(v / base, base);
      DivMul(v, base);
    }
  }

  lemma {:induction false} NumeralCanonical(v: nat, base: nat)
    requires 2 <= base <= 16
    ensures Canonical(Numeral(v, base), base) && (Numeral(v, base)[0] == '0' ==> v == 0)
  {
    QuotientSmaller(v, base);
    DigitOf(v % base);
    assert IsDigit(HEXDIGITS[v % base], base);
    if v < base {
    } else {
      NumeralCanonical(v / base, base);
    }
  }

  /** `n` digits are enough exactly for the numbers below base^n. */
  lemma {:induction false} NumeralLength(v: nat, base: nat, n: nat)
    requires 2 <= base <= 16 && n >= 1
    ensures |Numeral(v, base)| <= n <==> v < Pow(base, n)
  {
    var p := Pow(base, n - 1);
    PowPositive(base, n - 1);
    QuotientSmaller(v, base);
    if v < base {
      MulLe(1, p, base);
    } else {
      QuotientBelow(v, base, p);
      if n > 1 {
        NumeralLength(v / base, base, n - 1);
      }
    }
  }

  lemma {:induction false} QuotientBelow(v: nat, base: nat, p: nat)
    requires base > 0
    ensures v / base < p <==> v < base * p
  {
    DivMul(v, base);
    if v / base < p {
      MulLe(v / base + 1, p, base);
      assert (v / base + 1) * base == v / base * base + base;
    } else {
      MulLe(p, v / base, base);
    }
  }

  /** Canonical: a nonempty run of digits that is "0" or starts with another digit. */
  ghost predicate Canonical(s: string, base: nat)
    requires base <= 16
  {
    |s| >= 1 && (|s| > 1 ==> s[0] != '0') && forall c :: c in s ==> IsDigit(c, base)
  }

  lemma {:induction false} DigitBelow(c: char, base: nat)
    requires 2 <= base <= 16 && IsDigit(c, base)
    ensures DigitValue(c) < base && HEXDIGITS[DigitValue(c)] == c
    ensures c != '0' ==> DigitValue(c) > 0
  {
    var d :| 0 <= d < base && HEXDIGITS[d] == c;
    DigitOf(d);
  }

  lemma {:induction false} CanonicalPositive(s: string, base: nat)
    requires 2 <= base <= 16 && Canonical(s, base) && s[0] != '0'
    ensures NumeralValue(s, base) > 0
  {
    var init, last := s[..|s| - 1], s[|s| - 1];
    DigitBelow(last, base);
    if |s| > 1 {
      assert forall c :: c in init ==> c in s;
      CanonicalPositive(init, base);
      MulLe(1, NumeralValue(init, base), base);
    } else {
      assert init == "";
    }
  }

  /** There is only one canonical numeral for each number. */
  lemma {:induction false} NumeralUnique(s: string, base: nat)
    requires 2 <= base <= 16 && Canonical(s, base)
    ensures Numeral(NumeralValue(s, base), base) == s
  {
    var init, last := s[..|s| - 1], s[|s| - 1];
    DigitBelow(last, base);
    assert s == init + [last];
    if |s| == 1 {
      SingleDigit(s, base);
    } else {
      CanonicalPrefix(s, base);
      NumeralUnique(init, base);
      AppendDigit(NumeralValue(s, base), NumeralValue(init, base), DigitValue(last), base, init);
    }
  }

  lemma {:induction false} SingleDigit(s: string, base: nat)
    requires |s| == 1
    ensures NumeralValue(s, base) == DigitValue(s[0])
  {
    assert s[..0] == "";
  }

  lemma {:induction false} CanonicalPrefix(s: string, base: nat)
    requires 2 <= base <= 16 && Canonical(s, base) && |s| > 1
    ensures Canonical(s[..|s| - 1], base) && NumeralValue(s[..|s| - 1], base) > 0
  {
    assert forall c :: c in s[..|s| - 1] ==> c in s;
    CanonicalPositive(s[..|s| - 1], base);
  }

  lemma {:induction false} AppendDigit(n: nat, q: nat, d: nat, base: nat, init: string)
    requires 2 <= base <= 16 && n == q * base + d && q > 0 && d < base && Numeral(q, base) == init
    ensures Numeral(n, base) == init + [HEXDIGITS[d]]
  {
    MulLe(1, q, base);
    DivModUnique(n, base, q, d);
  }

  // Printing

  function Reversed(s: string): string {
    seq(|s|, i requires 0 <= i < |s| => s[|s| - 1 - i])
  }

  /** Reverses the first `length` characters in place. */
  method ReverseString(str: array<char>, length: nat)
    requires 1 <= length <= str.Length
    modifies str
    ensures str[..length] == Reversed(old(str[..length]))
    ensures str[length..] == old(str[length..])
  {
    var i, j := 0, length - 1;
    while i < j
      invariant 0 <= i <= j + 1 && i + j == length - 1
      invariant forall k :: 0 <= k < i ==> str[k] == old(str[length - 1 - k]) && str[length - 1 - k] == old(str[k])
      invariant forall k :: i <= k <= j ==> str[k] == old(str[k])
      invariant str[length..] == old(str[length..])
    {
      str[i], str[j] := str[j], str[i];
      i := i + 1;
      j := j - 1;
    }
    assert forall k :: 0 <= k < length ==> str[k] == old(str[length - 1 - k]);
  }

  /** The digits written so far, least significant first, complete the numeral of what is left. */
  ghost predicate Printing(number: nat, base: nat, left: nat, digits: string)
    requires 2 <= base <= 16
  {
    Numeral(number, base) == Numeral(left, base) + Reversed(digits)
  }

  lemma {:induction false} PrintDigit(number: nat, base: nat, left: nat, digits: string)
    requires 2 <= base <= 16 && Printing(number, base, left, digits)
    ensures left % base < 16
    ensures left / base > 0 ==> Printing(number, base, left / base, digits + [HEXDIGITS[left % base]])
    ensures left / base == 0 ==> Numeral(number, base) == Reversed(digits + [HEXDIGITS[left % base]])
  {
    var more := digits + [HEXDIGITS[left % base]];
    assert Reversed(more) == [HEXDIGITS[left % base]] + Reversed(digits);
    QuotientSmaller(left, base);
  }

  /** Divides by the base and returns the digit that is left over. */
  method NextDigit(left: U256, base: U256, rMod: U256) returns (digit: char)
    requires 2 <= base.Value() <= 16 && left != base && left != rMod && base != rMod
    modifies left, rMod
    ensures left.Value() == old(left.Value()) / base.Value()
    ensures 0 <= old(left.Value()) % base.Value() < 16 && digit == HEXDIGITS[old(left.Value()) % base.Value()]
  {
    DivMod256(left, base, left, rMod);
    SmallLimbs(rMod);
    digit := HEXDIGITS[rMod.lower.lower];
  }

  /** Everything that was printed is a digit, and so no terminator. */
  lemma {:induction false} PrintedDigits(number: nat, base: nat, left: nat, digits: string)
    requires 2 <= base <= 16 && Printing(number, base, left, digits)
    ensures (forall c :: c in digits ==> IsDigit(c, base)) && '\0' !in digits
  {
    NumeralCanonical(number, base);
    forall i | 0 <= i < |digits|
      ensures IsDigit(digits[i], base) && digits[i] != '\0'
    {
      var k := |Numeral(left, base)| + (|digits| - 1 - i);
      assert Numeral(number, base)[k] == Reversed(digits)[|digits| - 1 - i] == digits[i];
      DigitBelow(digits[i], base);
    }
  }

  /** The loop of tostring256: digits from the least significant on, until nothing is left or there is no room. */
  method PrintDigits(number: U256, baseParam: nat, out: array<char>, outLength: nat) returns (ok: bool, offset: nat)
    requires 2 <= baseParam <= 16 && 1 <= outLength < out.Length
    modifies out
    ensures ok <==> number.Value() < Pow(baseParam, outLength)
    ensures ok ==> 1 <= offset <= outLength && Numeral(number.Value(), baseParam) == Reversed(out[..offset])
    ensures !ok ==> '\0' !in out[..outLength] && forall c :: c in out[..outLength] ==> IsDigit(c, baseParam)
  {
    var rDiv := new U256();
    var rMod := new U256();
    var base := new U256();
    Copy256(rDiv, number);
    base.lower := U128(0, baseParam);
    ghost var n := number.Value();
    NumeralLength(n, baseParam, outLength);
    offset := 0;
    while true
      invariant 0 <= offset <= outLength
      invariant base.Value() == baseParam
      invariant Printing(n, baseParam, rDiv.Value(), out[..offset])
      modifies out, rDiv, rMod
      decreases outLength - offset
    {
      if offset > outLength - 1 {
        PrintedDigits(n, baseParam, rDiv.Value(), out[..offset]);
        return false, offset;
      }
      ghost var digits := out[..offset];
      PrintDigit(n, baseParam, rDiv.Value(), digits);
      var digit := NextDigit(rDiv, base, rMod);
      out[offset] := digit;
      offset := offset + 1;
      assert out[..offset] == digits + [digit];
      if Zero256(rDiv) {
        return true, offset;
      }
    }
  }

  /**
   * Prints a number. Succeeds exactly when the base is supported and the numeral fits in
   * `outLength` characters; the buffer must hold one more for the terminator. When it does not
   * fit, the buffer is left full of digits.
   */
  method ToString256(number: U256, baseParam: nat, out: array<char>, outLength: nat) returns (ok: bool)
    requires 1 <= outLength < out.Length
    modifies out
    ensures ok <==> 2 <= baseParam <= 16 && number.Value() < Pow(baseParam, outLength)
    ensures ok ==>
              var s := Numeral(number.Value(), baseParam);
              |s| <= outLength && out[..|s|] == s && out[|s|] == '\0'
    ensures !ok && 2 <= baseParam <= 16 ==> '\0' !in out[..outLength]
  {
    if baseParam < 2 || baseParam > 16 {
      return false;
    }
    var offset;
    ok, offset := PrintDigits(number, baseParam, out, outLength);
    if !ok {
      return;
    }
    ghost var digits := out[..offset];
    out[offset] := '\0';
    assert out[..offset] == digits;
    ReverseString(out, offset);
    assert out[offset] == out[offset..][0];
  }

  lemma {:induction false} SmallLimbs(n: U256)
    requires n.Value() < 16
    ensures n.lower.lower == n.Value()
  {}
}
