/** Base 128 varints and ZigZag numbers of the Protocol Buffers wire format, as nanopb reads and writes them. */
module Varints {
  import opened Arith

  datatype Parsed<T> = Malformed | Parsed(value: T, rest: seq<byte>)

  // The format

  /** The minimal encoding: seven bits per byte, least significant first, all but the last byte flagged. */
  function Varint(v: nat): (s: seq<byte>)
    ensures |s| >= 1
  {
    if v < 128 then [v] else [v % 128 + 128] + Varint(v / 128)
  }

  /** The number that the low seven bits of the bytes spell. */
  function Leb(s: seq<byte>): nat {
    if s == [] then 0 else s[0] % 128 + 128 * Leb(s[1..])
  }

  /** A complete varint: flagged bytes and one unflagged byte at the end. */
  ghost predicate IsVarint(s: seq<byte>) {
    |s| >= 1 && s[|s| - 1] < 128 && forall i :: 0 <= i < |s| - 1 ==> s[i] >= 128
  }

  /** Length of the varint at the front, or 0 when no byte ends it. */
  function VarintLength(bs: seq<byte>): (n: nat)
    ensures n <= |bs|
    ensures n > 0 ==> bs[n - 1] < 128 && forall i :: 0 <= i < n - 1 ==> bs[i] >= 128
    ensures n == 0 ==> forall i :: 0 <= i < |bs| ==> bs[i] >= 128
  {
    if bs == [] then 0
    else if bs[0] < 128 then 1
    else
      var n := VarintLength(bs[1..]);
      assert forall i :: 1 <= i < |bs| ==> bs[i] == bs[1..][i - 1];
      if n == 0 then 0 else n + 1
  }

  lemma {:induction false} LengthUnique(bs: seq<byte>, n: nat)
    requires 0 < n <= |bs| && IsVarint(bs[..n])
    ensures VarintLength(bs) == n
  {
    assert bs[..n][n - 1] == bs[n - 1] && forall i :: 0 <= i < n - 1 ==> bs[i] == bs[..n][i];
  }

  lemma {:induction false} LengthPrefix(a: seq<byte>, b: seq<byte>)
    requires VarintLength(a) > 0
    ensures VarintLength(a + b) == VarintLength(a)
  {
    var n := VarintLength(a);
    assert (a + b)[..n] == a[..n];
    LengthUnique(a + b, n);
  }

  lemma {:induction false} LongerVarint(b: byte, t: seq<byte>)
    requires b >= 128 && IsVarint(t)
    ensures IsVarint([b] + t) && Leb([b] + t) == b % 128 + 128 * Leb(t)
  {
    assert ([b] + t)[1..] == t;
  }

  lemma {:induction false} VarintIsVarint(v: nat)
    ensures IsVarint(Varint(v)) && Leb(Varint(v)) == v
  {
    if v < 128 {
      assert [v][1..] == [];
    } else {
      VarintIsVarint(v / 128);
      LongerVarint(v % 128 + 128, Varint(v / 128));
    }
  }

  /** No shorter varint denotes the same number. */
  lemma {:induction false} VarintMinimal(s: seq<byte>)
    requires IsVarint(s)
    ensures |Varint(Leb(s))| <= |s|
  {
    if |s| == 1 {
      assert Leb(s[1..]) == 0;
    } else {
      var t := s[1..];
      assert IsVarint(t);
      VarintMinimal(t);
      if Leb(s) >= 128 {
        assert Leb(s) / 128 == Leb(t);
      }
    }
  }

  lemma {:induction false} VarintSize(v: nat, n: nat)
    requires n >= 1
    ensures |Varint(v)| <= n <==> v < Pow(128, n)
  {
    var p := Pow(128, n - 1);
    PowPositive(128, n - 1);
    if n == 1 {
      assert Pow(128, 0) == 1;
      if v >= 128 {
        assert |Varint(v / 128)| >= 1;
      }
    } else if v >= 128 {
      VarintSize(v / 128, n - 1);
    }
  }

  lemma {:induction false} Pow128Words()
    ensures Pow(128, 5) == 8 * TWO32 && Pow(128, 10) == 64 * TWO64
  {
    assert Pow(128, 5) == 0x8_0000_0000;
    PowAdd(128, 5, 5);
  }

  lemma {:induction false} VarintAtMost10(v: u64)
    ensures |Varint(v)| <= 10 && (v < TWO32 ==> |Varint(v)| <= 5)
  {
    Pow128Words();
    VarintSize(v, 10);
    VarintSize(v, 5);
  }

  lemma {:induction false} LebConcat(a: seq<byte>, b: seq<byte>)
    ensures Leb(a + b) == Leb(b) * Pow(128, |a|) + Leb(a)
  {
    if a == [] {
      assert a + b == b;
    } else {
      assert (a + b)[1..] == a[1..] + b;
      LebConcat(a[1..], b);
      MulAssoc(Leb(b), Pow(128, |a| - 1), 128);
      assert Pow(128, |a|) == Pow(128, |a| - 1) * 128;
    }
  }

  lemma {:induction false} LebBound(a: seq<byte>)
    ensures Leb(a) < Pow(128, |a|)
  {
    if a == [] {
    } else {
      LebBound(a[1..]);
    }
  }

  // What the decoders accept

  /** The 64-bit decoder: at most ten bytes, excess high bits dropped. */
  function Read64(bs: seq<byte>): (r: Parsed<u64>)
    ensures r.Parsed? ==> |r.rest| < |bs|
  {
    var n := VarintLength(bs);
    if 0 < n <= 10 then Parsed(Leb(bs[..n]) % TWO64, bs[n..]) else Malformed
  }

  /** The bits that the 32-bit decoder keeps: those of the first five bytes. */
  function Low32(bs: seq<byte>, n: nat): u32
    requires n <= |bs|
  {
    Leb(bs[..if n < 5 then n else 5]) % TWO32
  }

  /** Bytes beyond bit 35: no bits, or the sign extension of a negative value. */
  predicate ValidExtension(b: byte, i: nat, low: u32) {
    b % 128 == 0 || (low >= TWO31 && b == if i < 9 then 0xFF else 0x01)
  }

  /** The 32-bit decoder of tags, lengths and booleans. */
  function Read32(bs: seq<byte>): (r: Parsed<u32>)
    ensures r.Parsed? ==> |r.rest| < |bs|
  {
    var n := VarintLength(bs);
    if 0 < n <= 10 && (n == 5 ==> bs[4] < 16) &&
       (forall i :: 5 <= i < n ==> ValidExtension(bs[i], i, Low32(bs, n)))
    then Parsed(Low32(bs, n), bs[n..]) else Malformed
  }

  /** What a decoder reads does not depend on what follows. */
  lemma {:induction false} Read64Prefix(a: seq<byte>, b: seq<byte>)
    requires Read64(a).Parsed?
    ensures Read64(a + b) == Parsed(Read64(a).value, Read64(a).rest + b)
  {
    var n := VarintLength(a);
    LengthPrefix(a, b);
    assert (a + b)[..n] == a[..n] && (a + b)[n..] == a[n..] + b;
  }

  lemma {:induction false} Read32Prefix(a: seq<byte>, b: seq<byte>)
    requires Read32(a).Parsed?
    ensures Read32(a + b) == Parsed(Read32(a).value, Read32(a).rest + b)
  {
    var n := VarintLength(a);
    LengthPrefix(a, b);
    var m := if n < 5 then n else 5;
    assert (a + b)[..m] == a[..m] && (a + b)[n..] == a[n..] + b;
  }

  /** The 64-bit decoder inverts the encoder on every 64-bit value, consuming exactly its bytes. */
  lemma {:induction false} Read64RoundTrip(v: u64, tail: seq<byte>)
    ensures Read64(Varint(v) + tail) == Parsed(v, tail)
  {
    var s := Varint(v);
    VarintIsVarint(v);
    VarintAtMost10(v);
    assert (s + tail)[..|s|] == s && (s + tail)[|s|..] == tail;
    LengthUnique(s + tail, |s|);
    SmallMod(v, TWO64);
  }

  /** Whenever the 32-bit decoder accepts, the 64-bit one accepts the same bytes and agrees modulo 2^32. */
  lemma {:induction false} Read32Refines(bs: seq<byte>)
    requires Read32(bs).Parsed?
    ensures Read64(bs).Parsed? && Read64(bs).rest == Read32(bs).rest
    ensures Read64(bs).value % TWO32 == Read32(bs).value
  {
    var n := VarintLength(bs);
    if n > 5 {
      assert bs[..n] == bs[..5] + bs[5..n];
      LebConcat(bs[..5], bs[5..n]);
      Pow128Words();
      ModAddMultiple(Leb(bs[..5]), 8 * Leb(bs[5..n]), TWO32);
    }
    ModOfMod(Leb(bs[..n]));
  }

  lemma {:induction false} ModOfMod(x: nat)
    ensures x % TWO64 % TWO32 == x % TWO32
  {
    var q := x / TWO64;
    ModAddMultiple(x % TWO64, q * TWO32, TWO32);
  }

  /** Every canonical encoding of an unsigned 32-bit value is accepted. */
  lemma {:induction false} Read32RoundTrip(v: u32, tail: seq<byte>)
    ensures Read32(Varint(v) + tail) == Parsed(v, tail)
  {
    var s := Varint(v);
    VarintIsVarint(v);
    VarintAtMost10(v);
    assert (s + tail)[..|s|] == s && (s + tail)[|s|..] == tail;
    LengthUnique(s + tail, |s|);
    if |s| == 5 {
      FifthByte(s);
    }
    assert |s| <= 5 && (s + tail)[..|s|] == s;
    SmallMod(v, TWO32);
  }

  lemma {:induction false} FifthByte(s: seq<byte>)
    requires IsVarint(s) && |s| == 5 && Leb(s) < TWO32
    ensures s[4] < 16
  {
    SplitLeb(s, 4);
    assert Pow(128, 4) == 0x1000_0000;
    assert Leb(s[4..]) == s[4] % 128 + 128 * Leb(s[4..][1..]);
  }

  lemma {:induction false} VarintDigits(v: nat, n: nat)
    requires v >= Pow(128, n)
    ensures |Varint(v)| >= n && Pow(128, n) > 0 && Varint(v)[n..] == Varint(v / Pow(128, n))
  {
    PowPositive(128, n);
    if n == 0 {
      assert Pow(128, 0) == 1;
    } else {
      var p := Pow(128, n - 1);
      PowPositive(128, n - 1);
      DivDiv(v, 128, p);
      QuotientAtLeast(v, p);
      VarintDigits(v / 128, n - 1);
      assert Varint(v)[n..] == Varint(v / 128)[n - 1..];
    }
  }

  lemma {:induction false} VarintLowDigits(v: nat, n: nat)
    requires v >= Pow(128, n)
    ensures |Varint(v)| >= n && Pow(128, n) > 0 && Leb(Varint(v)[..n]) == v % Pow(128, n)
  {
    VarintDigits(v, n);
    var s := Varint(v);
    SplitLeb(s, n);
    LebBound(s[..n]);
    VarintIsVarint(v);
    DivModUnique(v, Pow(128, n), Leb(s[n..]), Leb(s[..n]));
  }

  lemma {:induction false} SplitLeb(s: seq<byte>, n: nat)
    requires n <= |s|
    ensures Leb(s) == Leb(s[n..]) * Pow(128, n) + Leb(s[..n])
  {
    assert s == s[..n] + s[n..] && |s[..n]| == n;
    LebConcat(s[..n], s[n..]);
  }

  lemma {:induction false} QuotientAtLeast(v: nat, p: nat)
    requires v >= 128 * p && p > 0
    ensures v >= 128 && v / 128 >= p
  {}

  /** ... and so is every sign-extended encoding of a negative 32-bit value. */
  lemma {:induction false} Read32Negative(x: int, tail: seq<byte>)
    requires -TWO31 <= x < 0
    ensures Read32(Varint(x + TWO64) + tail) == Parsed(x + TWO32, tail)
  {
    var s := Varint(x + TWO64);
    VarintIsVarint(x + TWO64);
    NegativeBytes(x);
    assert (s + tail)[..10] == s && (s + tail)[10..] == tail;
    LengthUnique(s + tail, 10);
    assert (s + tail)[..5] == s[..5];
    DivModUnique(x + 8 * TWO32, TWO32, 7, x + TWO32);
  }

  lemma {:induction false} NegativeBytes(x: int)
    requires -TWO31 <= x < 0
    ensures
      var s := Varint(x + TWO64);
      && |s| == 10 && Leb(s[..5]) == x + 8 * TWO32
      && s[5] == s[6] == s[7] == s[8] == 0xFF && s[9] == 0x01
  {
    var v := x + TWO64;
    var s := Varint(v);
    Pow128Words();
    VarintDigits(v, 5);
    VarintLowDigits(v, 5);
    DivModUnique(v, 8 * TWO32, 0x1FFF_FFFF, x + 8 * TWO32);
    SignBytes();
    assert s[5] == s[5..][0] && s[6] == s[5..][1] && s[7] == s[5..][2] && s[8] == s[5..][3] && s[9] == s[5..][4];
  }

  lemma {:induction false} SignBytes()
    ensures Varint(0x1FFF_FFFF) == [0xFF, 0xFF, 0xFF, 0xFF, 0x01]
  {
    assert Varint(0x1) == [0x1];
    assert Varint(0xFF) == [0xFF, 0x01];
    assert Varint(0x7FFF) == [0xFF, 0xFF, 0x01];
    assert Varint(0x3F_FFFF) == [0xFF, 0xFF, 0xFF, 0x01];
  }

  // ZigZag

  /** Complement of a word. */
  function Not64(x: u64): u64 {
    TWO64 - 1 - x
  }

  /** Signed numbers of small magnitude as small unsigned numbers. */
  function ZigZag(v: i64): u64 {
    if v < 0 then Not64(Unsigned64(v) * 2 % TWO64) else Unsigned64(v) * 2 % TWO64
  }

  function UnZigZag(u: u64): i64 {
    if u % 2 == 1 then Signed64(Not64(u / 2)) else Signed64(u / 2)
  }

  lemma {:induction false} ZigZagRoundTrip(v: i64)
    ensures UnZigZag(ZigZag(v)) == v
    ensures ZigZag(v) == if v < 0 then -2 * v - 1 else 2 * v
  {
    if v < 0 {
      assert Unsigned64(v) * 2 == TWO64 + (2 * v + TWO64);
      assert ZigZag(v) == -2 * v - 1;
    } else {
      assert ZigZag(v) == 2 * v;
    }
  }

  lemma {:induction false} UnZigZagRoundTrip(u: u64)
    ensures ZigZag(UnZigZag(u)) == u
  {
    ZigZagRoundTrip(UnZigZag(u));
  }

  // What the decoders make of any bytes

  /** The 64-bit decoder takes every varint of at most ten bytes, minimal or not, and no longer one. */
  lemma {:induction false} Read64Iff(s: seq<byte>, tail: seq<byte>)
    requires IsVarint(s)
    ensures Read64(s + tail) == if |s| <= 10 then Parsed(Leb(s) % TWO64, tail) else Malformed
  {
    assert (s + tail)[..|s|] == s && (s + tail)[|s|..] == tail;
    LengthUnique(s + tail, |s|);
  }

  /** A varint that does not end is refused by both. */
  lemma {:induction false} UnendedRefused(bs: seq<byte>)
    requires forall i :: 0 <= i < |bs| ==> bs[i] >= 128
    ensures Read64(bs) == Malformed && Read32(bs) == Malformed
  {}

  lemma {:induction false} LowBytes(s: seq<byte>)
    requires IsVarint(s) && |s| == 5 && s[4] < 16
    ensures Leb(s) < TWO32
  {
    SplitLeb(s, 4);
    LebBound(s[..4]);
    assert Pow(128, 4) == 0x1000_0000;
    assert Leb(s[4..]) == s[4] % 128 + 128 * Leb(s[4..][1..]);
    assert s[4..][1..] == [];
  }

  lemma {:induction false} ZeroGroups(s: seq<byte>, i: nat)
    requires Leb(s) == 0 && i < |s|
    ensures s[i] % 128 == 0
  {
    if i == 0 {
    } else {
      ZeroGroups(s[1..], i - 1);
    }
  }

  /** Up to five bytes, the 32-bit decoder takes exactly the varints of 32-bit numbers. */
  lemma {:induction false} Read32Iff(s: seq<byte>, tail: seq<byte>)
    requires IsVarint(s) && |s| <= 5
    ensures Read32(s + tail) == if Leb(s) < TWO32 then Parsed(Leb(s), tail) else Malformed
  {
    assert (s + tail)[..|s|] == s && (s + tail)[|s|..] == tail;
    LengthUnique(s + tail, |s|);
    if |s| == 5 {
      if Leb(s) < TWO32 {
        FifthByte(s);
        SmallMod(Leb(s), TWO32);
      } else if s[4] < 16 {
        LowBytes(s);
      }
    } else {
      LebBound(s);
      PowMonotone(128, |s|, 4);
      assert Pow(128, 4) == 0x1000_0000;
      SmallMod(Leb(s), TWO32);
    }
  }

  /** Longer ones are padded: every varint of a 32-bit number is taken, up to ten bytes. */
  lemma {:induction false} Read32Padded(s: seq<byte>, tail: seq<byte>)
    requires IsVarint(s) && |s| <= 10 && Leb(s) < TWO32
    ensures Read32(s + tail) == Parsed(Leb(s), tail)
  {
    if |s| <= 5 {
      Read32Iff(s, tail);
    } else {
      assert (s + tail)[..|s|] == s && (s + tail)[|s|..] == tail && (s + tail)[..5] == s[..5];
      LengthUnique(s + tail, |s|);
      SplitLeb(s, 5);
      Pow128Words();
      assert Leb(s[5..]) == 0;
      forall i | 5 <= i < |s|
        ensures s[i] % 128 == 0
      {
        ZeroGroups(s[5..], i - 5);
      }
      SmallMod(Leb(s), TWO32);
    }
  }
}
