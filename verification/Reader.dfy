/** The input streams and decoding loops of nanopb/pb_decode.c, proved to compute the functions of Wire. */
module Reader {
  import opened Arith
  import opened Varints

  /** A position in a buffer and the number of bytes that may still be read. */
  class IStream {
    const buf: seq<byte>
    var pos: nat
    var left: nat

    constructor (buf: seq<byte>, pos: nat, left: nat)
      requires pos + left <= |buf|
      ensures Valid() && this.buf == buf && this.pos == pos && this.left == left
    {
      this.buf, this.pos, this.left := buf, pos, left;
    }

    ghost predicate Valid()
      reads this
    {
      pos + left <= |buf|
    }

    /** The buffer offset at which the stream ends: reading moves towards it and never past it. */
    ghost function End(): nat
      reads this
    {
      pos + left
    }

    ghost function Rest(): (s: seq<byte>)
      requires Valid()
      reads this
      ensures |s| == left
    {
      buf[pos..pos + left]
    }

    /** The bytes still to be read, with the end where it was. */
    ghost predicate At(end: nat, rest: seq<byte>)
      reads this
    {
      Valid() && End() == end && Rest() == rest
    }
  }

  method Read(stream: IStream, count: nat) returns (ok: bool, data: seq<byte>)
    requires stream.Valid()
    modifies stream
    ensures stream.Valid() && stream.End() <= old(stream.End())
    ensures ok <==> count <= old(stream.left)
    ensures ok ==> data == old(stream.Rest())[..count] && stream.At(old(stream.End()), old(stream.Rest())[count..])
    ensures !ok ==> unchanged(stream)
  {
    if count == 0 {
      return true, [];
    }
    if stream.left < count {
      return false, [];
    }
    data := stream.buf[stream.pos..stream.pos + count];
    stream.pos := stream.pos + count;
    stream.left := stream.left - count;
    ok := true;
  }

  method ReadByte(stream: IStream) returns (ok: bool, b: byte)
    requires stream.Valid()
    modifies stream
    ensures stream.Valid() && stream.End() <= old(stream.End())
    ensures ok <==> old(stream.left) > 0
    ensures ok ==> b == old(stream.Rest())[0] && stream.At(old(stream.End()), old(stream.Rest())[1..])
    ensures !ok ==> unchanged(stream)
  {
    if stream.left == 0 {
      return false, 0;
    }
    b := stream.buf[stream.pos];
    stream.pos := stream.pos + 1;
    stream.left := stream.left - 1;
    ok := true;
  }

  // Varints

  /** ORing seven more bits into a word of `w` bits whose bits from `s` on are clear. */
  lemma {:induction false} OrShifted(lo: nat, x: nat, s: nat, w: nat)
    requires s <= w && lo < Pow(2, s)
    ensures Pow(2, w) > 0 && BitOr(lo, Shl(x, s) % Pow(2, w)) == (lo + Shl(x, s)) % Pow(2, w)
  {
    var p, q, m := Pow(2, s), Pow(2, w - s), Pow(2, w);
    PowPositive(2, w);
    PowPositive(2, w - s);
    PowPositive(2, s);
    PowAdd(2, s, w - s);
    ShlIsPow(x, s);
    var hi := x % q;
    TruncatedSum(0, x, p, q);
    assert 0 + x * p == x * p;
    BitOrDisjoint(hi, lo, s);
    TruncatedSum(lo, x, p, q);
  }

  lemma {:induction false} TruncatedSum(lo: nat, x: nat, p: nat, q: nat)
    requires 0 <= lo < p && q > 0
    ensures p * q > 0 && (lo + x * p) % (p * q) == x % q * p + lo
  {
    DivDiv(lo + x * p, p, q);
    ModAddMultiple(lo, x, p);
    SmallMod(lo, p);
  }

  lemma {:induction false} Pow128(k: nat)
    ensures Pow(128, k) == Pow(2, 7 * k)
  {
    if k == 0 {
    } else {
      Pow128(k - 1);
      PowAdd(2, 7, 7 * (k - 1));
      assert Pow(2, 7) == 128;
    }
  }

  lemma {:induction false} NextByte(bs: seq<byte>, k: nat)
    requires k < |bs|
    ensures Leb(bs[..k + 1]) == Leb(bs[..k]) + Shl(bs[k] % 128, 7 * k) && Leb(bs[..k]) < Pow(2, 7 * k)
  {
    assert bs[..k + 1] == bs[..k] + [bs[k]];
    LebConcat(bs[..k], [bs[k]]);
    LebBound(bs[..k]);
    Pow128(k);
    ShlIsPow(bs[k] % 128, 7 * k);
    assert Leb([bs[k]]) == bs[k] % 128 + 128 * Leb([bs[k]][1..]);
  }

  lemma {:induction false} OrStep64(bs: seq<byte>, k: nat, result: u64)
    requires k < |bs| && k < 10 && result == Leb(bs[..k]) % TWO64
    ensures BitOr(result, Shl(bs[k] % 128, 7 * k) % TWO64) == Leb(bs[..k + 1]) % TWO64
  {
    NextByte(bs, k);
    PowMonotone(2, 7 * k, 64);
    Pow2Words();
    SmallMod(Leb(bs[..k]), TWO64);
    OrShifted(result, bs[k] % 128, 7 * k, 64);
  }

  lemma {:induction false} OrStep32(bs: seq<byte>, k: nat, result: u32)
    requires k < |bs| && k < 5 && result == Leb(bs[..k]) % TWO32
    ensures BitOr(result, Shl(bs[k] % 128, 7 * k) % TWO32) == Leb(bs[..k + 1]) % TWO32
  {
    NextByte(bs, k);
    PowMonotone(2, 7 * k, 32);
    Pow2Words();
    SmallMod(Leb(bs[..k]), TWO32);
    OrShifted(result, bs[k] % 128, 7 * k, 32);
  }

  lemma {:induction false} OrFits64(bs: seq<byte>, k: nat, result: u64)
    requires k < |bs| && k < 10 && result == Leb(bs[..k]) % TWO64
    ensures BitOr(result, Shl(bs[k] % 128, 7 * k) % TWO64) < TWO64
  {
    OrStep64(bs, k, result);
  }

  /** A varint whose first k bytes are flagged ends beyond them, or not at all. */
  lemma {:induction false} FlaggedPrefix(bs: seq<byte>, k: nat)
    requires k <= |bs| && forall i :: 0 <= i < k ==> bs[i] >= 128
    ensures VarintLength(bs) == 0 || VarintLength(bs) > k
    ensures k == |bs| ==> VarintLength(bs) == 0
    ensures k < |bs| && bs[k] < 128 ==> VarintLength(bs) == k + 1
  {
    if k < |bs| && bs[k] < 128 {
      assert bs[..k + 1][k] == bs[k];
      LengthUnique(bs, k + 1);
    }
  }

  method DecodeVarint(stream: IStream) returns (ok: bool, result: u64)
    requires stream.Valid()
    modifies stream
    ensures stream.Valid() && stream.End() <= old(stream.End())
    ensures ok <==> Read64(old(stream.Rest())).Parsed?
    ensures ok ==>
              && result == Read64(old(stream.Rest())).value
              && stream.At(old(stream.End()), Read64(old(stream.Rest())).rest)
  {
    ghost var bs, end := stream.Rest(), stream.End();
    ghost var k := 0;
    var bitpos := 0;
    result := 0;
    while true
      invariant k <= |bs| && bitpos == 7 * k && k <= 10
      invariant stream.At(end, bs[k..])
      invariant result == Leb(bs[..k]) % TWO64
      invariant forall i :: 0 <= i < k ==> bs[i] >= 128
      decreases stream.left
    {
      FlaggedPrefix(bs, k);
      if bitpos >= 64 {
        return false, 0;
      }
      var read, b := ReadByte(stream);
      if !read {
        return false, 0;
      }
      OrStep64(bs, k, result);
      OrFits64(bs, k, result);
      result := BitOr(result, Shl(b % 128, bitpos) % TWO64);
      bitpos := bitpos + 7;
      k := k + 1;
      assert bs[k - 1..][1..] == bs[k..];
      if b < 128 {
        return true, result;
      }
    }
  }

  /** Once five bytes are in, further bytes do not change the 32 bits that are kept. */
  lemma {:induction false} LowSettled(bs: seq<byte>, k: nat, n: nat)
    requires k <= n <= |bs| && (k >= 5 || k == n)
    ensures Low32(bs, n) == Low32(bs, k)
  {}

  lemma {:induction false} OrFits32(bs: seq<byte>, k: nat, result: u32)
    requires k < |bs| && k < 5 && result == Low32(bs, k)
    ensures BitOr(result, Shl(bs[k] % 128, 7 * k) % TWO32) < TWO32
    ensures BitOr(result, Shl(bs[k] % 128, 7 * k) % TWO32) == Low32(bs, k + 1)
  {
    OrStep32(bs, k, result);
  }

  lemma {:induction false} FirstByte32(bs: seq<byte>)
    requires |bs| > 0
    ensures Low32(bs, 1) == bs[0] % 128
  {
    assert bs[..1][1..] == [] && bs[..1][0] == bs[0];
    assert Leb(bs[..1]) == bs[0] % 128 + 128 * Leb([]);
    SmallMod(bs[0] % 128, TWO32);
  }

  /** The bytes seen so far may still begin an acceptable 32-bit varint. */
  ghost predicate Extended(bs: seq<byte>, k: nat, low: u32)
    requires k <= |bs|
  {
    forall i :: 5 <= i < k ==> ValidExtension(bs[i], i, low)
  }

  lemma {:induction false} BadExtension(bs: seq<byte>, k: nat)
    requires 5 <= k < |bs| && (k >= 10 || !ValidExtension(bs[k], k, Low32(bs, k)))
    requires forall i :: 0 <= i < k ==> bs[i] >= 128
    ensures Read32(bs).Malformed?
  {
    FlaggedPrefix(bs, k);
    var n := VarintLength(bs);
    if n > 0 {
      LowSettled(bs, k, n);
    }
  }

  lemma {:induction false} Accepted32(bs: seq<byte>, k: nat)
    requires 0 < k <= 10 && k <= |bs| && bs[k - 1] < 128 && forall i :: 0 <= i < k - 1 ==> bs[i] >= 128
    requires Extended(bs, k, Low32(bs, k))
    ensures Read32(bs) == if k == 5 && bs[4] >= 16 then Malformed else Parsed(Low32(bs, k), bs[k..])
  {
    FlaggedPrefix(bs, k - 1);
  }

  /** One more byte of a multibyte varint: rejected only when no continuation could be accepted. */
  method Absorb(b: byte, bitpos: nat, low: u32, ghost bs: seq<byte>, ghost k: nat) returns (ok: bool, result: u32)
    requires 1 <= k < |bs| && bitpos == 7 * k && b == bs[k] && k <= 10
    requires forall i :: 0 <= i < k ==> bs[i] >= 128
    requires low == Low32(bs, k) && Extended(bs, k, low)
    ensures ok ==> k < 10 && result == Low32(bs, k + 1) && Extended(bs, k + 1, result)
    ensures !ok ==> Read32(bs).Malformed?
  {
    if bitpos >= 32 {
      var signExtension := if bitpos < 63 then 0xFF else 0x01;
      var validExtension := b % 128 == 0 || (low >= TWO31 && b == signExtension);
      if bitpos >= 64 || !validExtension {
        BadExtension(bs, k);
        return false, 0;
      }
      LowSettled(bs, k, k + 1);
      return true, low;
    } else {
      OrFits32(bs, k, low);
      return true, BitOr(low, Shl(b % 128, bitpos) % TWO32);
    }
  }

  /** The bytes of a varint up to and including its last one, k in all, with acceptable extensions. */
  ghost predicate Scanned(bs: seq<byte>, k: nat, low: u32) {
    && 1 < k <= 10 && k <= |bs| && bs[k - 1] < 128 && (forall i :: 0 <= i < k - 1 ==> bs[i] >= 128)
    && low == Low32(bs, k) && Extended(bs, k, low)
  }

  /** The loop over the second and later bytes. */
  method ScanVarint32(stream: IStream, first: byte, ghost bs: seq<byte>)
    returns (ok: bool, fifth: bool, last: byte, low: u32, ghost k: nat)
    requires stream.Valid() && |bs| >= 1 && first == bs[0] >= 128 && stream.Rest() == bs[1..]
    modifies stream
    ensures stream.Valid() && stream.End() <= old(stream.End())
    ensures ok ==>
              && Scanned(bs, k, low) && last == bs[k - 1] && (fifth <==> k == 5)
              && stream.At(old(stream.End()), bs[k..])
    ensures !ok ==> Read32(bs).Malformed?
  {
    ghost var end := stream.End();
    FirstByte32(bs);
    k := 1;
    var bitpos := 7;
    low := first % 128;
    while true
      invariant 1 <= k <= |bs| && bitpos == 7 * k && k <= 10
      invariant stream.At(end, bs[k..])
      invariant low == Low32(bs, k) && Extended(bs, k, low)
      invariant forall i :: 0 <= i < k ==> bs[i] >= 128
      decreases stream.left
    {
      var read, b := ReadByte(stream);
      if !read {
        FlaggedPrefix(bs, k);
        return false, false, 0, 0, k;
      }
      ok, low := Absorb(b, bitpos, low, bs, k);
      if !ok {
        return false, false, 0, 0, k;
      }
      bitpos := bitpos + 7;
      k := k + 1;
      assert bs[k - 1..][1..] == bs[k..];
      if b < 128 {
        return true, bitpos == 35, b, low, k;
      }
    }
  }

  method DecodeVarint32(stream: IStream) returns (ok: bool, eof: bool, result: u32)
    requires stream.Valid()
    modifies stream
    ensures stream.Valid() && stream.End() <= old(stream.End())
    ensures ok <==> Read32(old(stream.Rest())).Parsed?
    ensures ok ==>
              && result == Read32(old(stream.Rest())).value
              && stream.At(old(stream.End()), Read32(old(stream.Rest())).rest)
    ensures eof <==> old(stream.left) == 0
  {
    ghost var bs := stream.Rest();
    var read, b := ReadByte(stream);
    if !read {
      return false, true, 0;
    }
    if b < 128 {
      FirstByte32(bs);
      Accepted32(bs, 1);
      return true, false, b;
    }
    var scanned, fifth, last, low, k := ScanVarint32(stream, b, bs);
    if !scanned {
      return false, false, 0;
    }
    Accepted32(bs, k);
    return !fifth || last < 16, false, low;
  }
}
