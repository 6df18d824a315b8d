/** Rendering of integer amounts as decimal fractions (adjustDecimals and print_amount of src/parse.c). */
module Decimal {
  import opened Arith
  import opened Radix

  // What a rendered string denotes

  /** Position of the decimal point, or the length of a string without one. */
  function PointAt(t: string): (p: nat)
    ensures p <= |t| && (p < |t| ==> t[p] == '.') && '.' !in t[..p]
  {
    if t == "" then 0 else if t[0] == '.' then 0 else
      assert t == [t[0]] + t[1..];
      1 + PointAt(t[1..])
  }

  function Fraction(t: string): string {
    var p := PointAt(t);
    if p < |t| then t[p + 1..] else ""
  }

  /** All digits of a decimal, point removed. */
  function Mantissa(t: string): string {
    t[..PointAt(t)] + Fraction(t)
  }

  /** The value a decimal denotes, times 10^d. */
  function Scaled(t: string, d: nat): nat
    requires |Fraction(t)| <= d
  {
    NumeralValue(Mantissa(t), 10) * Pow(10, d - |Fraction(t)|)
  }

  lemma {:induction false} PointUnique(a: string, b: string)
    requires '.' !in a
    ensures PointAt(a + "." + b) == |a| && Fraction(a + "." + b) == b && Mantissa(a + "." + b) == a + b
    ensures PointAt(a) == |a| && Fraction(a) == "" && Mantissa(a) == a
  {
    var t := a + "." + b;
    assert t[|a|] == '.';
    assert PointAt(t) >= |a|;
    assert t[|a| + 1..] == b;
    assert t[..|a|] == a;
    assert a[..|a|] == a;
  }

  // Specification of adjustDecimals

  function Zeros(n: nat): (s: string)
    ensures |s| == n && forall i :: 0 <= i < n ==> s[i] == '0'
  {
    seq(n, _ => '0')
  }

  /** The digits with the point put in place, before trimming. */
  function Pointed(s: string, d: nat): string {
    if |s| <= d then "0." + Zeros(d - |s|) + s
    else if d == 0 then s
    else s[..|s| - d] + "." + s[|s| - d..]
  }

  /** Where trimming may start: behind the point and behind the padding. */
  function TrimStart(s: string, d: nat): nat {
    if |s| <= d then 2 + d - |s| else if d == 0 then |s| else |s| - d + 1
  }

  /** Drops trailing zeros, none of them before `start`. */
  function StripZeros(t: string, start: nat): (r: string)
    ensures |r| <= |t| && r == t[..|r|] && (start <= |t| ==> start <= |r|)
  {
    if |t| > start && t[|t| - 1] == '0' then StripZeros(t[..|t| - 1], start) else t
  }

  /** Drops trailing zeros and then a point they uncover. */
  function Trimmed(t: string, start: nat): (r: string)
    ensures |r| <= |t| && r == t[..|r|]
  {
    var r := StripZeros(t, start);
    if 0 < |r| < |t| && r[|r| - 1] == '.' then r[..|r| - 1] else r
  }

  function Adjusted(s: string, d: nat): string {
    if s == "0" then "0" else Trimmed(Pointed(s, d), TrimStart(s, d))
  }

  /** The buffer size adjustDecimals asks for. */
  function Room(s: string, d: nat): nat {
    if s == "0" then 2 else if |s| <= d then d + 3 else |s| + 2
  }

  // The string between the start of a buffer and its terminator

  ghost predicate Holds(buffer: array<char>, s: string)
    reads buffer
  {
    |s| < buffer.Length && buffer[..|s|] == s && buffer[|s|] == '\0'
  }

  /** Copies characters into a buffer at a position. */
  method Put(s: string, target: array<char>, offset: nat) returns (next: nat)
    requires offset + |s| <= target.Length
    modifies target
    ensures next == offset + |s|
    ensures target[..next] == old(target[..offset]) + s
  {
    for i := 0 to |s|
      invariant target[..offset + i] == old(target[..offset]) + s[..i]
    {
      target[offset + i] := s[i];
      assert s[..i + 1] == s[..i] + [s[i]];
    }
    assert s[..|s|] == s;
    next := offset + |s|;
  }

  lemma {:induction false} StripRun(t: string, start: nat, z: nat)
    requires start <= z <= |t|
    requires forall i :: z <= i < |t| ==> t[i] == '0'
    requires z > start ==> t[z - 1] != '0'
    ensures StripZeros(t, start) == t[..z]
    decreases |t|
  {
    if z < |t| {
      var u := t[..|t| - 1];
      StripRun(u, start, z);
      assert u[..z] == t[..z];
    } else {
      assert t[..z] == t;
    }
  }

  /**
   * Places the decimal point and trims trailing zeros. Fails only for lack of room.
   */
  method AdjustDecimals(src: string, target: array<char>, targetLength: nat, decimals: nat) returns (ok: bool)
    requires targetLength <= target.Length
    requires '\0' !in src
    modifies target
    ensures ok <==> Room(src, decimals) <= targetLength
    ensures ok ==> Holds(target, Adjusted(src, decimals))
  {
    var srcLength := |src|;
    if srcLength == 1 && src[0] == '0' {
      assert src == "0";
      if targetLength < 2 {
        return false;
      }
      target[0] := '0';
      target[1] := '\0';
      assert target[..1] == "0";
      return true;
    }
    assert src != "0";
    var startOffset, offset;
    if srcLength <= decimals {
      if targetLength < srcLength + 1 + 2 + (decimals - srcLength) {
        return false;
      }
      startOffset, offset := PlaceBelowOne(src, target, decimals);
    } else {
      if targetLength < srcLength + 1 + 1 {
        return false;
      }
      startOffset, offset := PlaceWithin(src, target, decimals);
    }
    TrimBuffer(target, startOffset, offset);
    return true;
  }

  /** Fewer digits than decimals: pads with zeros behind "0.". */
  method PlaceBelowOne(src: string, target: array<char>, decimals: nat) returns (startOffset: nat, offset: nat)
    requires |src| <= decimals && decimals + 2 < target.Length
    modifies target
    ensures startOffset == TrimStart(src, decimals) <= offset == |Pointed(src, decimals)| < target.Length
    ensures target[..offset] == Pointed(src, decimals)
  {
    offset := Put("0.", target, 0);
    offset := Put(Zeros(decimals - |src|), target, offset);
    startOffset := offset;
    offset := Put(src, target, offset);
  }

  /** More digits than decimals: splits them at the point. */
  method PlaceWithin(src: string, target: array<char>, decimals: nat) returns (startOffset: nat, offset: nat)
    requires decimals < |src| && |src| + 1 < target.Length
    modifies target
    ensures startOffset == TrimStart(src, decimals) <= offset == |Pointed(src, decimals)| < target.Length
    ensures target[..offset] == Pointed(src, decimals)
  {
    var delta := |src| - decimals;
    offset := Put(src[..delta], target, 0);
    if decimals != 0 {
      offset := Put(".", target, offset);
    }
    startOffset := offset;
    offset := Put(src[delta..], target, offset);
    assert src[..delta] + src[delta..] == src;
  }

  /** Terminates the text, or cuts it at its trailing zeros and at a point left bare by them. */
  method TrimBuffer(target: array<char>, startOffset: nat, offset: nat)
    requires 1 <= startOffset <= offset < target.Length
    modifies target
    ensures Holds(target, Trimmed(old(target[..offset]), startOffset))
  {
    ghost var t := target[..offset];
    target[offset] := '\0';
    var lastZeroOffset := 0;
    for i := startOffset to offset
      invariant target[..offset] == t
      invariant lastZeroOffset == 0 ==> i == startOffset || t[i - 1] != '0'
      invariant lastZeroOffset != 0 ==> startOffset <= lastZeroOffset < i
      invariant lastZeroOffset != 0 ==> forall j :: lastZeroOffset <= j < i ==> t[j] == '0'
      invariant lastZeroOffset > startOffset ==> t[lastZeroOffset - 1] != '0'
    {
      assert target[i] == t[i];
      if target[i] == '0' {
        if lastZeroOffset == 0 {
          lastZeroOffset := i;
        }
      } else {
        lastZeroOffset := 0;
      }
    }
    StripRun(t, startOffset, if lastZeroOffset == 0 then offset else lastZeroOffset);
    if lastZeroOffset != 0 {
      target[lastZeroOffset] := '\0';
      assert target[..lastZeroOffset] == t[..lastZeroOffset];
      if target[lastZeroOffset - 1] == '.' {
        target[lastZeroOffset - 1] := '\0';
        assert target[..lastZeroOffset - 1] == t[..lastZeroOffset - 1];
      }
    }
  }

  // What adjustDecimals keeps

  lemma {:induction false} NumeralValueConcat(a: string, b: string)
    ensures NumeralValue(a + b, 10) == NumeralValue(a, 10) * Pow(10, |b|) + NumeralValue(b, 10)
  {
    if b == "" {
      assert a + b == a;
    } else {
      var c, n := b[..|b| - 1], |b| - 1;
      assert (a + b)[..|a + b| - 1] == a + c;
      NumeralValueConcat(a, c);
      MulAssoc(NumeralValue(a, 10), Pow(10, n), 10);
    }
  }

  lemma {:induction false} ZerosDenoteZero(n: nat)
    ensures NumeralValue(Zeros(n), 10) == 0
  {
    if n == 0 {
    } else {
      assert Zeros(n)[..n - 1] == Zeros(n - 1);
      ZerosDenoteZero(n - 1);
    }
  }

  /** Digits with the point at `p`, or without point when there is nothing behind it. */
  ghost predicate Splits(t: string, whole: string, fraction: string) {
    '.' !in whole && (t == whole + "." + fraction || (t == whole && fraction == ""))
  }

  lemma {:induction false} SplitsParts(t: string, whole: string, fraction: string)
    requires Splits(t, whole, fraction)
    ensures Fraction(t) == fraction && Mantissa(t) == whole + fraction
  {
    PointUnique(whole, fraction);
    assert whole + "" == whole;
  }

  lemma {:induction false} StripOnlyZeros(t: string, start: nat)
    ensures forall i :: |StripZeros(t, start)| <= i < |t| ==> t[i] == '0'
    decreases |t|
  {
    if |t| <= start || t[|t| - 1] != '0' {
    } else {
      StripOnlyZeros(t[..|t| - 1], start);
    }
  }

  /** Dropping trailing zeros of the fraction keeps the value. */
  lemma {:induction false} DroppedZeros(whole: string, fraction: string, k: nat, d: nat)
    requires k <= |fraction| <= d && forall i :: k <= i < |fraction| ==> fraction[i] == '0'
    ensures NumeralValue(whole + fraction[..k], 10) * Pow(10, d - k) ==
            NumeralValue(whole + fraction, 10) * Pow(10, d - |fraction|)
  {
    var n := |fraction| - k;
    assert fraction[k..] == Zeros(n);
    assert whole + fraction == (whole + fraction[..k]) + Zeros(n);
    NumeralValueConcat(whole + fraction[..k], Zeros(n));
    ZerosDenoteZero(n);
    PowAdd(10, n, d - |fraction|);
    MulAssoc(NumeralValue(whole + fraction[..k], 10), Pow(10, n), Pow(10, d - |fraction|));
  }

  lemma {:induction false} NoPoint(s: string)
    requires forall c :: c in s ==> IsDigit(c, 10)
    ensures '.' !in s && '\0' !in s
  {
    forall c | c in s
      ensures c != '.' && c != '\0'
    {
      DigitBelow(c, 10);
    }
  }

  /** The whole and fractional digits of a pointed numeral. */
  function WholePart(s: string, d: nat): string {
    if |s| <= d then "0" else s[..|s| - d]
  }

  function FractionPart(s: string, d: nat): string {
    if |s| <= d then Zeros(d - |s|) + s else s[|s| - d..]
  }

  lemma {:induction false} PartsValue(s: string, d: nat)
    ensures |FractionPart(s, d)| == d
    ensures NumeralValue(WholePart(s, d) + FractionPart(s, d), 10) == NumeralValue(s, 10)
  {
    if |s| <= d {
      assert "0" + (Zeros(d - |s|) + s) == Zeros(d - |s| + 1) + s;
      NumeralValueConcat(Zeros(d - |s| + 1), s);
      ZerosDenoteZero(d - |s| + 1);
    } else {
      assert WholePart(s, d) + FractionPart(s, d) == s;
    }
  }

  /** Rendered text of a nonempty numeral: no trailing fractional zero, no bare point. */
  ghost predicate Tidy(t: string) {
    |t| > 0 && t[|t| - 1] != '.' && (Fraction(t) != "" ==> t[|t| - 1] != '0')
  }

  /**
   * The rendering of a canonical numeral at d decimals denotes exactly the number divided by
   * 10^d, and is tidy.
   */
  lemma {:induction false} AdjustedKeepsValue(s: string, d: nat)
    requires Canonical(s, 10)
    ensures |Fraction(Adjusted(s, d))| <= d
    ensures Scaled(Adjusted(s, d), d) == NumeralValue(s, 10)
    ensures Tidy(Adjusted(s, d))
  {
    NoPoint(s);
    if s == "0" {
      SplitsParts("0", "0", "");
      SingleDigit("0", 10);
    } else if d == 0 {
      SplitsParts(s, s, "");
      assert StripZeros(s, |s|) == s;
      assert Pow(10, 0) == 1 && s + "" == s;
      LastIsDigit(s);
    } else {
      AdjustedKeepsFraction(s, d);
    }
  }

  lemma {:induction false} AdjustedKeepsFraction(s: string, d: nat)
    requires Canonical(s, 10) && '.' !in s && s != "0" && d > 0
    ensures |Fraction(Adjusted(s, d))| <= d
    ensures Scaled(Adjusted(s, d), d) == NumeralValue(s, 10)
    ensures Tidy(Adjusted(s, d))
  {
    var whole, fraction, start := WholePart(s, d), FractionPart(s, d), TrimStart(s, d);
    PointedParts(s, d);
    PartsValue(s, d);
    var k := Kept(whole, fraction, start);
    TrimmedParts(whole, fraction, start);
    DroppedZeros(whole, fraction, k, d);
    assert Pow(10, 0) == 1;
    StrippedEnd(s, d, k);
    TidyParts(whole, fraction[..k], Adjusted(s, d));
  }

  lemma {:induction false} WholeOf(t: string, whole: string, fraction: string)
    requires Splits(t, whole, fraction)
    ensures t[..PointAt(t)] == whole
  {
    PointUnique(whole, fraction);
  }

  /** A rendered text is a numeral without leading zeros and, behind a point, nothing but digits. */
  lemma {:induction false} AdjustedIsDecimal(s: string, d: nat)
    requires Canonical(s, 10)
    ensures
      var t := Adjusted(s, d);
      Canonical(t[..PointAt(t)], 10) && forall c :: c in Fraction(t) ==> IsDigit(c, 10)
  {
    NoPoint(s);
    if s == "0" || d == 0 {
      assert d == 0 ==> StripZeros(s, |s|) == s;
      WholeOf(s, s, "");
      SplitsParts(s, s, "");
    } else {
      var whole, fraction, start := WholePart(s, d), FractionPart(s, d), TrimStart(s, d);
      PointedParts(s, d);
      TrimmedParts(whole, fraction, start);
      var k := Kept(whole, fraction, start);
      WholeOf(Adjusted(s, d), whole, fraction[..k]);
      SplitsParts(Adjusted(s, d), whole, fraction[..k]);
      PartsAreDigits(s, d);
    }
  }

  lemma {:induction false} PartsAreDigits(s: string, d: nat)
    requires Canonical(s, 10) && s != "0"
    ensures Canonical(WholePart(s, d), 10) && forall c :: c in FractionPart(s, d) ==> IsDigit(c, 10)
  {
    assert HEXDIGITS[0] == '0';
    assert IsDigit('0', 10);
    if |s| > d {
      assert forall c :: c in s[..|s| - d] ==> c in s;
      assert s[..|s| - d][0] == s[0];
    }
  }

  /** The space that adjustDecimals asks for, by the size of the number: one character may stay unused. */
  lemma {:induction false} RoomByValue(v: nat, d: nat)
    ensures Room(Numeral(v, 10), d) ==
            if v == 0 then 2 else if v < Pow(10, d) then d + 3 else |Numeral(v, 10)| + 2
  {
    NumeralCanonical(v, 10);
    assert Numeral(0, 10) == "0";
    assert Pow(10, 0) == 1;
    if d > 0 {
      NumeralLength(v, 10, d);
    }
  }

  lemma {:induction false} PointedParts(s: string, d: nat)
    requires d > 0 && '.' !in s
    ensures Pointed(s, d) == WholePart(s, d) + "." + FractionPart(s, d)
    ensures |WholePart(s, d)| > 0 && '.' !in WholePart(s, d) && '.' !in FractionPart(s, d)
    ensures |WholePart(s, d)| + 1 <= TrimStart(s, d) <= |WholePart(s, d)| + 1 + d && |FractionPart(s, d)| == d
  {}

  /** How many fractional digits trimming keeps. */
  ghost function Kept(whole: string, fraction: string, start: nat): (k: nat)
    requires |whole| + 1 <= start <= |whole| + 1 + |fraction|
    ensures k <= |fraction|
  {
    |StripZeros(whole + "." + fraction, start)| - |whole| - 1
  }

  lemma {:induction false} TrimmedParts(whole: string, fraction: string, start: nat)
    requires '.' !in whole && '.' !in fraction && |whole| > 0 && fraction != ""
    requires |whole| + 1 <= start <= |whole| + 1 + |fraction|
    ensures
      var k, t := Kept(whole, fraction, start), Trimmed(whole + "." + fraction, start);
      && (forall i :: k <= i < |fraction| ==> fraction[i] == '0')
      && Splits(t, whole, fraction[..k]) && (k == 0 ==> t == whole)
  {
    var t := whole + "." + fraction;
    var r := StripZeros(t, start);
    var k := Kept(whole, fraction, start);
    StripOnlyZeros(t, start);
    assert forall i :: 0 <= i < |fraction| ==> fraction[i] == t[|whole| + 1 + i];
    PointedPrefix(whole, fraction, k);
    if k == 0 {
      assert r[..|r| - 1] == whole;
    } else {
      assert r[|r| - 1] == fraction[k - 1];
    }
  }

  lemma {:induction false} PointedPrefix(whole: string, fraction: string, k: nat)
    requires k <= |fraction|
    ensures (whole + "." + fraction)[..|whole| + 1 + k] == whole + "." + fraction[..k]
  {}

  lemma {:induction false} TidyParts(whole: string, fraction: string, t: string)
    requires '.' !in whole && '.' !in fraction && |whole| > 0
    requires Splits(t, whole, fraction) && (fraction == "" ==> t == whole)
    requires fraction != "" ==> fraction[|fraction| - 1] != '0'
    ensures Fraction(t) == fraction && Mantissa(t) == whole + fraction && Tidy(t)
  {
    SplitsParts(t, whole, fraction);
    if fraction != "" {
      assert t[|t| - 1] == fraction[|fraction| - 1];
    }
  }

  lemma {:induction false} LastIsDigit(s: string)
    requires '.' !in s && |s| > 0
    ensures s[|s| - 1] != '.'
  {}

  /** When trimming stops at its start, the zeros before it are padding that a digit follows. */
  lemma {:induction false} StrippedEnd(s: string, d: nat, k: nat)
    requires Canonical(s, 10) && s != "0" && d > 0 && '.' !in s
    requires TrimStart(s, d) <= |WholePart(s, d)| + 1 + d && |FractionPart(s, d)| == d
    requires k == Kept(WholePart(s, d), FractionPart(s, d), TrimStart(s, d))
    ensures k > 0 ==> FractionPart(s, d)[k - 1] != '0'
  {
    PointedParts(s, d);
    var t, start := Pointed(s, d), TrimStart(s, d);
    var r := StripZeros(t, start);
    if k > 0 {
      if |r| == start {
        // the digit of the numeral at `start` is not a zero, so it cannot have been stripped
        assert t[start] == s[0];
        StripStops(t, start);
      }
      StripLast(t, start);
      assert r[|r| - 1] == t[|r| - 1] == FractionPart(s, d)[k - 1];
    }
  }

  lemma {:induction false} StripStops(t: string, start: nat)
    requires start < |t| && t[start] != '0'
    ensures |StripZeros(t, start)| > start
    decreases |t|
  {
    if t[|t| - 1] != '0' {
    } else {
      StripStops(t[..|t| - 1], start);
    }
  }

  lemma {:induction false} StripLast(t: string, start: nat)
    requires |StripZeros(t, start)| > start
    ensures StripZeros(t, start)[|StripZeros(t, start)| - 1] != '0'
    decreases |t|
  {
    if |t| <= start || t[|t| - 1] != '0' {
    } else {
      StripLast(t[..|t| - 1], start);
    }
  }

  /** Two numerals rendered to the same text at the same decimals are the same. */
  lemma {:induction false} AdjustedInjective(s1: string, s2: string, d: nat)
    requires Canonical(s1, 10) && Canonical(s2, 10)
    requires Adjusted(s1, d) == Adjusted(s2, d)
    ensures s1 == s2
  {
    AdjustedKeepsValue(s1, d);
    AdjustedKeepsValue(s2, d);
    NumeralUnique(s1, 10);
    NumeralUnique(s2, 10);
  }

  /** One text denotes one rational: values rendered alike at different decimals agree after scaling. */
  lemma {:induction false} SameTextSameRational(t: string, d1: nat, d2: nat)
    requires |Fraction(t)| <= d1 && |Fraction(t)| <= d2
    ensures Scaled(t, d1) * Pow(10, d2) == Scaled(t, d2) * Pow(10, d1)
  {
    var f, n := |Fraction(t)|, NumeralValue(Mantissa(t), 10);
    PowAdd(10, d1 - f, d2);
    PowAdd(10, d2 - f, d1);
    MulAssoc(n, Pow(10, d1 - f), Pow(10, d2));
    MulAssoc(n, Pow(10, d2 - f), Pow(10, d1));
  }

  // Equal rationals are rendered alike

  lemma {:induction false} StripAppended(t: string, start: nat)
    requires start <= |t|
    ensures StripZeros(t + "0", start) == StripZeros(t, start)
  {
    assert (t + "0")[..|t|] == t;
  }

  lemma {:induction false} TrimAppended(t: string, start: nat)
    requires start <= |t| && |t| > 0 && t[|t| - 1] != '.'
    ensures Trimmed(t + "0", start) == Trimmed(t, start)
  {
    StripAppended(t, start);
  }

  lemma {:induction false} PointedAppended(s: string, d: nat)
    requires s != "" && d > 0
    ensures Pointed(s + "0", d + 1) == Pointed(s, d) + "0" && TrimStart(s + "0", d + 1) == TrimStart(s, d)
    ensures |Pointed(s, d)| > 0 && TrimStart(s, d) <= |Pointed(s, d)|
    ensures Pointed(s, d)[|Pointed(s, d)| - 1] == s[|s| - 1]
  {
    if |s| > d {
      SplitAppended(s, |s| - d);
    } else {
      PaddedAppended(s, d - |s|);
    }
  }

  lemma {:induction false} SplitAppended(s: string, n: nat)
    requires n < |s|
    ensures (s + "0")[..n] + "." + (s + "0")[n..] == s[..n] + "." + s[n..] + "0"
  {
    assert (s + "0")[..n] == s[..n] && (s + "0")[n..] == s[n..] + "0";
  }

  lemma {:induction false} PaddedAppended(s: string, n: nat)
    ensures "0." + Zeros(n) + (s + "0") == "0." + Zeros(n) + s + "0"
  {}

  /** Ten times the number at one more decimal. */
  lemma {:induction false} AdjustedTenfold(s: string, d: nat)
    requires s != "" && s != "0" && '.' !in s
    ensures Adjusted(s + "0", d + 1) == Adjusted(s, d)
  {
    if d == 0 {
      var t := s + "." + "0";
      assert (s + "0")[..|s|] == s && (s + "0")[|s|..] == "0";
      assert Pointed(s + "0", 1) == t;
      assert t[..|s| + 1] == s + "." && (s + ".")[..|s|] == s;
      assert StripZeros(t, |s| + 1) == s + ".";
    } else {
      PointedAppended(s, d);
      TrimAppended(Pointed(s, d), TrimStart(s, d));
    }
  }

  lemma {:induction false} NumeralTenfold(a: nat)
    requires a > 0
    ensures Numeral(10 * a, 10) == Numeral(a, 10) + "0"
  {
    DivModUnique(10 * a, 10, a, 0);
    assert HEXDIGITS[0] == '0';
  }

  lemma {:induction false} TenfoldText(b: nat, d: nat)
    ensures Adjusted(Numeral(10 * b, 10), d + 1) == Adjusted(Numeral(b, 10), d)
  {
    if b == 0 {
      ZeroText();
    } else {
      NumeralTenfold(b);
      NumeralCanonical(b, 10);
      NoPoint(Numeral(b, 10));
      NotZero(b);
      AdjustedTenfold(Numeral(b, 10), d);
    }
  }

  lemma {:induction false} ZeroText()
    ensures Numeral(0, 10) == "0"
  {
    assert HEXDIGITS[0] == '0';
  }

  lemma {:induction false} NotZero(b: nat)
    requires b > 0
    ensures Numeral(b, 10) != "0"
  {
    NumeralCanonical(b, 10);
  }

  /** `n` is `a` with k zeros appended. */
  predicate Scales(a: nat, k: nat, n: nat)
    decreases k
  {
    if k == 0 then n == a else n % 10 == 0 && Scales(a, k - 1, n / 10)
  }

  lemma {:induction false} ScalesBy(a: nat, k: nat)
    ensures Scales(a, k, a * Pow(10, k))
  {
    if k == 0 {
    } else {
      ScalesBy(a, k - 1);
      TenTimes(a, Pow(10, k - 1));
      DivModUnique(10 * (a * Pow(10, k - 1)), 10, a * Pow(10, k - 1), 0);
    }
  }

  lemma {:induction false} TenTimes(a: int, p: int)
    ensures a * (10 * p) == 10 * (a * p)
  {}

  /** Whatever does not change when a zero is appended at one more decimal does not change with k of them. */
  lemma {:induction false} AppendZeros(f: (nat, nat) -> string, a: nat, d: nat, k: nat, n: nat)
    requires Scales(a, k, n) && forall b: nat, e: nat :: f(10 * b, e + 1) == f(b, e)
    ensures f(n, d + k) == f(a, d)
    decreases k
  {
    if k == 0 {
    } else {
      AppendZeros(f, a, d, k - 1, n / 10);
      assert f(10 * (n / 10), d + k - 1 + 1) == f(n / 10, d + k - 1);
    }
  }

  function Rendered(n: nat, d: nat): string {
    Adjusted(Numeral(n, 10), d)
  }

  lemma {:induction false} ScaledText(a: nat, d: nat, k: nat, n: nat)
    requires Scales(a, k, n)
    ensures Rendered(n, d + k) == Rendered(a, d)
  {
    forall b: nat, e: nat
      ensures Rendered(10 * b, e + 1) == Rendered(b, e)
    {
      TenfoldText(b, e);
    }
    AppendZeros(Rendered, a, d, k, n);
  }

  lemma {:induction false} Cancel(a: nat, b: nat, p: nat)
    requires p > 0 && a * p == b * p
    ensures a == b
  {
    DivModUnique(a * p, p, a, 0);
    DivModUnique(b * p, p, b, 0);
  }

  /** Numbers whose quotients by powers of ten agree have the same text: the rendering depends on the rational alone. */
  lemma {:induction false} SameRationalSameText(a1: nat, d1: nat, a2: nat, d2: nat)
    requires a1 * Pow(10, d2) == a2 * Pow(10, d1)
    ensures Adjusted(Numeral(a1, 10), d1) == Adjusted(Numeral(a2, 10), d2)
  {
    if d1 <= d2 {
      HigherDecimals(a1, d1, a2, d2);
    } else {
      HigherDecimals(a2, d2, a1, d1);
    }
  }

  lemma {:induction false} HigherDecimals(a1: nat, d1: nat, a2: nat, d2: nat)
    requires a1 * Pow(10, d2) == a2 * Pow(10, d1) && d1 <= d2
    ensures Adjusted(Numeral(a1, 10), d1) == Adjusted(Numeral(a2, 10), d2)
  {
    var k := d2 - d1;
    PowAdd(10, k, d1);
    PowPositive(10, d1);
    MulAssoc(a1, Pow(10, k), Pow(10, d1));
    Cancel(a1 * Pow(10, k), a2, Pow(10, d1));
    ScalesBy(a1, k);
    ScaledText(a1, d1, k, a2);
  }
}
