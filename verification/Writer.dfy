/** The output streams of nanopb/pb_encode.c and its varint encoder for machines with slow 64-bit shifts. */
module Writer {
  import opened Arith
  import opened Varints

  /**
   * An output stream over a buffer, or one that only counts when there is no buffer.
   * `log` is what was emitted since the stream was made: the counting stream emits as well,
   * it only stores nothing.
   */
  class OStream {
    const buf: array?<byte>
    const start: nat
    const maxSize: nat
    var pos: nat
    var written: nat
    ghost var log: seq<byte>

    /** pb_ostream_from_buffer, also used to hand a part of a buffer to a submessage. */
    constructor Over(buf: array<byte>, start: nat, maxSize: nat)
      requires start + maxSize <= buf.Length
      ensures Valid() && !Sizing() && log == [] && this.buf == buf && this.maxSize == maxSize && this.start == start
    {
      this.buf, this.start, this.maxSize := buf, start, maxSize;
      pos, written, log := start, 0, [];
    }

    constructor Counting()
      ensures Valid() && Sizing() && log == []
    {
      buf, start, maxSize := null, 0, 0;
      pos, written, log := 0, 0, [];
    }

    predicate Sizing() {
      buf == null
    }

    ghost function Repr(): set<object> {
      if buf == null then {} else {buf}
    }

    ghost predicate Valid()
      reads this, Repr()
    {
      && written == |log|
      && (buf != null ==>
            && start + maxSize <= buf.Length && written <= maxSize && pos == start + written
            && buf[start..pos] == log)
    }

    /** Whether n more bytes can be emitted. */
    predicate Room(n: nat)
      reads this
    {
      Sizing() || written + n <= maxSize
    }

    /** Nothing outside the stream's part of the buffer changes. */
    twostate predicate Confined()
      reads this, Repr()
    {
      buf != null && start + maxSize <= buf.Length ==>
        buf[..start] == old(buf[..start]) && buf[start + maxSize..] == old(buf[start + maxSize..])
    }

    /** pb_write. */
    method Write(data: seq<byte>) returns (ok: bool)
      requires Valid()
      modifies this, Repr()
      ensures Valid()
      ensures ok <==> old(Room(|data|))
      ensures ok ==> log == old(log) + data
      ensures Confined()
    {
      if |data| > 0 && buf != null {
        if written + |data| > maxSize {
          return false;
        }
        Store(data);
      }
      written := written + |data|;
      log := log + data;
      ok := true;
    }

    /** buf_write. */
    method Store(data: seq<byte>)
      requires buf != null && Valid() && written + |data| <= maxSize
      modifies this`pos, buf
      ensures pos == old(pos) + |data| && buf[start..pos] == log + data
      ensures buf[..start] == old(buf[..start]) && buf[start + maxSize..] == old(buf[start + maxSize..])
    {
      var dest := pos;
      pos := dest + |data|;
      for i := 0 to |data|
        invariant buf[start..dest] == log && buf[dest..dest + i] == data[..i]
        invariant buf[..start] == old(buf[..start]) && buf[start + maxSize..] == old(buf[start + maxSize..])
        modifies buf
      {
        buf[dest + i] := data[i];
        assert data[..i + 1] == data[..i] + [data[i]];
      }
      assert data[..|data|] == data;
      assert buf[start..pos] == buf[start..dest] + buf[dest..pos];
    }

    /** pb_write without data, as the counting stream uses it: only the length of what it stands for matters. */
    method Count(size: nat, ghost data: seq<byte>)
      requires Valid() && Sizing() && |data| == size
      modifies this
      ensures Valid() && log == old(log) + data && Confined()
    {
      written := written + size;
      log := log + data;
    }
  }

  // Varints

  /** Bits of the low half that are still to be emitted behind i bytes. */
  function LowBound(i: nat): nat {
    match i
    case 0 => TWO32
    case 1 => 0x200_0000
    case 2 => 0x4_0000
    case 3 => 0x800
    case _ => 16
  }

  lemma {:induction false} FlagBit(b: nat)
    requires b < 128
    ensures BitOr(b, 128) == b + 128
  {
    assert Pow(2, 7) == 128;
    BitOrDisjoint(1, b, 7);
  }

  lemma {:induction false} JoinBits(b: nat, h: nat)
    requires b < 16
    ensures BitOr(b, h * 16) == b + h * 16
  {
    assert Pow(2, 4) == 16;
    BitOrDisjoint(h, b, 4);
  }

  lemma {:induction false} ShlSeven(x: nat, k: nat)
    ensures Shl(x, k + 7) == 128 * Shl(x, k)
  {
    assert Shl(x, k + 1) == 2 * Shl(x, k);
    assert Shl(x, k + 2) == 4 * Shl(x, k);
    assert Shl(x, k + 3) == 8 * Shl(x, k);
    assert Shl(x, k + 4) == 16 * Shl(x, k);
    assert Shl(x, k + 5) == 32 * Shl(x, k);
    assert Shl(x, k + 6) == 64 * Shl(x, k);
  }

  lemma {:induction false} ShlPositive(x: nat, k: nat)
    ensures Shl(x, k) >= x
  {
    if k == 0 {
    } else {
      ShlPositive(x, k - 1);
    }
  }

  /** Seven more bits leave the low half. */
  lemma {:induction false} LowStep(rem: nat, high: u32, low: nat, b: byte, i: nat)
    requires i < 4 && b < 128 && rem == Shl(high, 32 - 7 * i) + (low * 128 + b) && low * 128 + b < LowBound(i)
    requires low != 0 || high != 0
    ensures rem >= 128 && rem % 128 == b && rem / 128 == Shl(high, 32 - 7 * (i + 1)) + low && low < LowBound(i + 1)
  {
    ShlSeven(high, 32 - 7 * (i + 1));
    ShlPositive(high, 32 - 7 * (i + 1));
    DivModUnique(rem, 128, Shl(high, 32 - 7 * (i + 1)) + low, b);
  }

  lemma {:induction false} LowDone(rem: nat, low: nat, b: byte, i: nat)
    requires i <= 4 && rem == Shl(0, 32 - 7 * i) + (low * 128 + b) && low * 128 + b < LowBound(i) &&
             (i < 4 ==> low == 0)
    ensures rem == b
  {
    ShlIsPow(0, 32 - 7 * i);
  }

  lemma {:induction false} WholeWord(high: u32, low: u32)
    ensures Shl(high, 32) + low == high * TWO32 + low < TWO64
  {
    ShlIsPow(high, 32);
    Pow2Words();
  }

  /** The top three bits of the fifth byte come from the high half. */
  lemma {:induction false} MiddleByte(rem: nat, high: u32, low: nat, b: byte)
    requires rem == Shl(high, 4) + (low * 128 + b) && low * 128 + b < 16
    ensures b + high % 8 * 16 < 128 && rem == high / 8 * 128 + (b + high % 8 * 16)
    ensures BitOr(b, high % 8 * 16) == b + high % 8 * 16
  {
    assert Shl(high, 1) == 2 * high;
    assert Shl(high, 2) == 4 * high;
    assert Shl(high, 3) == 8 * high;
    assert Shl(high, 4) == 16 * high;
    JoinBits(b, high % 8);
  }

  /** `done` is emitted and `rem` is what the remaining bytes spell. */
  ghost predicate Emitting(v: u64, done: seq<byte>, rem: nat) {
    Varint(v) == done + Varint(rem)
  }

  lemma {:induction false} EmitByte(v: u64, done: seq<byte>, rem: nat, q: nat, b: byte)
    requires Emitting(v, done, rem) && rem >= 128 && rem % 128 == b && rem / 128 == q
    ensures |done| < 10 && BitOr(b, 128) < 256 && Emitting(v, done + [BitOr(b, 128)], q)
  {
    VarintAtMost10(v);
    FlagBit(b);
    assert Varint(rem) == [b + 128] + Varint(q);
    assert done + ([b + 128] + Varint(q)) == done + [b + 128] + Varint(q);
  }

  lemma {:induction false} Extended<T>(before: seq<T>, after: seq<T>, i: nat, x: T)
    requires i < |before| && after == before[i := x]
    ensures after[..i + 1] == before[..i] + [x]
  {}

  /** pb_encode_varint_32: the two 32-bit halves of a word become its minimal encoding. */
  method EncodeHalves(low0: u32, high0: u32) returns (data: seq<byte>)
    ensures data == Varint(high0 * TWO32 + low0)
  {
    var low: nat, high := low0, high0;
    WholeWord(high, low0);
    ghost var v: u64 := Shl(high0, 32) + low0;
    ghost var rem: nat := v;
    var buffer := new byte[10];
    var i := 0;
    var b: byte := low % 128;
    low := low / 128;
    while i < 4 && (low != 0 || high != 0)
      invariant i <= 4 && b < 128 && low * 128 + b < LowBound(i)
      invariant rem == Shl(high, 32 - 7 * i) + (low * 128 + b)
      invariant Emitting(v, buffer[..i], rem)
    {
      LowStep(rem, high, low, b, i);
      EmitByte(v, buffer[..i], rem, Shl(high, 32 - 7 * (i + 1)) + low, b);
      ghost var before := buffer[..];
      buffer[i] := BitOr(b, 128);
      Extended(before, buffer[..], i, BitOr(b, 128));
      i := i + 1;
      rem := Shl(high, 32 - 7 * i) + low;
      b := low % 128;
      low := low / 128;
    }
    if high != 0 {
      i, b, rem := EncodeHigh(high, low, b, buffer, i, v, rem);
    } else {
      LowDone(rem, low, b, i);
    }
    EmitLast(v, buffer[..i], rem);
    ghost var before := buffer[..];
    buffer[i] := b;
    Extended(before, buffer[..], i, b);
    i := i + 1;
    return buffer[..i];
  }

  lemma {:induction false} EmitLast(v: u64, done: seq<byte>, rem: nat)
    requires Emitting(v, done, rem) && rem < 128
    ensures |done| < 10 && done + [rem] == Varint(v)
  {
    VarintAtMost10(v);
  }

  /** The second loop, over the high half. */
  method EncodeHigh(high0: u32, low: nat, b0: byte, buffer: array<byte>, i0: nat, ghost v: u64, ghost rem0: nat)
    returns (i: nat, b: byte, ghost rem: nat)
    requires buffer.Length == 10 && i0 == 4 && rem0 == Shl(high0, 4) + (low * 128 + b0) && low * 128 + b0 < 16
    requires Emitting(v, buffer[..i0], rem0)
    modifies buffer
    ensures i <= 10 && rem == b < 128 && Emitting(v, buffer[..i], rem)
  {
    var high := high0;
    i, rem := i0, rem0;
    MiddleByte(rem, high, low, b0);
    b := BitOr(b0, high % 8 * 16);
    high := high / 8;
    while high != 0
      invariant i <= 10 && b < 128 && rem == high * 128 + b
      invariant Emitting(v, buffer[..i], rem)
      decreases high
    {
      DivModUnique(rem, 128, high, b);
      EmitByte(v, buffer[..i], rem, high, b);
      ghost var before := buffer[..];
      buffer[i] := BitOr(b, 128);
      Extended(before, buffer[..], i, BitOr(b, 128));
      i := i + 1;
      rem := high;
      b := high % 128;
      high := high / 128;
    }
  }
}
