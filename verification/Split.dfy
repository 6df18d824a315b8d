/** Decoding a concatenation is decoding the first part and merging the second into the result. */
module Split {
  import opened Arith
  import opened Varints
  import opened Schema
  import opened Wire

  lemma {:induction false} TakePrefix(a: seq<byte>, b: seq<byte>, n: nat)
    requires Take(a, n).Parsed?
    ensures Take(a + b, n) == Parsed(Take(a, n).value, Take(a, n).rest + b)
  {
    assert (a + b)[..n] == a[..n] && (a + b)[n..] == a[n..] + b;
  }

  lemma {:induction false} TakeDelimitedPrefix(a: seq<byte>, b: seq<byte>)
    requires TakeDelimited(a).Parsed?
    ensures TakeDelimited(a + b) == Parsed(TakeDelimited(a).value, TakeDelimited(a).rest + b)
  {
    Read32Prefix(a, b);
    TakePrefix(Read32(a).rest, b, Read32(a).value);
  }

  lemma {:induction false} VarintCut(a: seq<byte>, b: seq<byte>)
    requires VarintLength(a) > 0
    ensures VarintLength(a + b) == VarintLength(a)
    ensures (a + b)[..VarintLength(a)] == a[..VarintLength(a)]
    ensures (a + b)[VarintLength(a)..] == a[VarintLength(a)..] + b
  {
    LengthPrefix(a, b);
  }

  lemma {:induction false} DecodeIntPrefix(l: LType, wireType: nat, a: seq<byte>, b: seq<byte>)
    requires DecodeInt(l, wireType, a).Parsed?
    ensures DecodeInt(l, wireType, a + b) == Parsed(DecodeInt(l, wireType, a).value, DecodeInt(l, wireType, a).rest + b)
  {
    if l.Bool? {
      Read32Prefix(a, b);
    } else {
      Read64Prefix(a, b);
    }
  }

  lemma {:induction false} DecodeFixedPrefix(n: nat, expected: nat, wireType: nat, a: seq<byte>, b: seq<byte>)
    requires n > 0 && DecodeFixed(n, expected, wireType, a).Parsed?
    ensures DecodeFixed(n, expected, wireType, a + b) ==
            Parsed(DecodeFixed(n, expected, wireType, a).value, DecodeFixed(n, expected, wireType, a).rest + b)
  {
    TakePrefix(a, b, n);
  }

  lemma {:induction false} DecodeBytesPrefix(l: LType, a: seq<byte>, b: seq<byte>)
    requires l.Bytes? || l.String? || l.FixedBytes?
    requires DecodeBytes(l, a).Parsed?
    ensures DecodeBytes(l, a + b) == Parsed(DecodeBytes(l, a).value, DecodeBytes(l, a).rest + b)
  {
    Read32Prefix(a, b);
    var n, rest := Read32(a).value, Read32(a).rest;
    if n <= |rest| {
      TakePrefix(rest, b, n);
    }
  }

  lemma {:induction false} DecodeValuePrefix(l: LType, current: Value, wireType: nat, a: seq<byte>, b: seq<byte>)
    requires DecodeValue(l, current, wireType, a).Parsed?
    ensures DecodeValue(l, current, wireType, a + b) ==
            Parsed(DecodeValue(l, current, wireType, a).value, DecodeValue(l, current, wireType, a).rest + b)
  {
    match l
    case Fixed32 => DecodeFixedPrefix(4, WT_32BIT, wireType, a, b);
    case Fixed64 => DecodeFixedPrefix(8, WT_64BIT, wireType, a, b);
    case Bytes(_) => DecodeBytesPrefix(l, a, b);
    case String(_) => DecodeBytesPrefix(l, a, b);
    case FixedBytes(_) => DecodeBytesPrefix(l, a, b);
    case Message(_) => TakeDelimitedPrefix(a, b);
    case _ => DecodeIntPrefix(l, wireType, a, b);
  }

  lemma {:induction false} DecodeCallbackPrefix(calls: seq<Call>, wireType: nat, a: seq<byte>, b: seq<byte>)
    requires DecodeCallback(calls, wireType, a).Parsed?
    ensures DecodeCallback(calls, wireType, a + b) ==
            Parsed(DecodeCallback(calls, wireType, a).value, DecodeCallback(calls, wireType, a).rest + b)
  {
    if wireType == WT_STRING {
      TakeDelimitedPrefix(a, b);
    } else if wireType == WT_VARINT {
      VarintCut(a, b);
    } else if wireType == WT_64BIT {
      TakePrefix(a, b, 8);
    } else {
      TakePrefix(a, b, 4);
    }
  }

  lemma {:induction false} DecodeFieldPrefix(f: Field, s: Slot, wireType: nat, a: seq<byte>, b: seq<byte>)
    requires DecodeField(f, s, wireType, a).Parsed?
    ensures DecodeField(f, s, wireType, a + b) ==
            Parsed(DecodeField(f, s, wireType, a).value, DecodeField(f, s, wireType, a).rest + b)
  {
    match s
    case Calls(calls) => DecodeCallbackPrefix(calls, wireType, a, b);
    case One(v) => DecodeValuePrefix(f.ltype, v, wireType, a, b);
    case Opt(o) => DecodeValuePrefix(f.ltype, if o.Some? then o.value else DefaultValue(f.ltype), wireType, a, b);
    case Rep(vs) =>
      if wireType == WT_STRING && Packable(f.ltype) {
        TakeDelimitedPrefix(a, b);
      } else {
        DecodeValuePrefix(f.ltype, DefaultValue(f.ltype), wireType, a, b);
      }
  }

  lemma {:induction false} SkipFieldPrefix(wireType: nat, a: seq<byte>, b: seq<byte>)
    requires SkipField(wireType, a).Parsed?
    ensures SkipField(wireType, a + b) == Parsed((), SkipField(wireType, a).rest + b)
  {
    if wireType == WT_VARINT {
      VarintCut(a, b);
    } else if wireType == WT_STRING {
      TakeDelimitedPrefix(a, b);
    } else if wireType == WT_64BIT {
      TakePrefix(a, b, 8);
    } else {
      TakePrefix(a, b, 4);
    }
  }

  lemma {:induction false} DecodeRecordPrefix(fields: Fields, m: Slots, a: seq<byte>, b: seq<byte>)
    requires |fields| == |m| && DecodeRecord(fields, m, a).Parsed?
    ensures DecodeRecord(fields, m, a + b) ==
            Parsed(DecodeRecord(fields, m, a).value, DecodeRecord(fields, m, a).rest + b)
  {
    Read32Prefix(a, b);
    var word, rest := Read32(a).value, Read32(a).rest;
    var i := Find(fields, word / 8);
    if i == |fields| {
      SkipFieldPrefix(word % 8, rest, b);
    } else {
      DecodeFieldPrefix(fields[i], m[i], word % 8, rest, b);
    }
  }

  /** The last-one-wins and merge rules of the wire format, for every schema and every pair of buffers. */
  lemma {:induction false} DecodeSplit(fields: Fields, m: Slots, a: seq<byte>, b: seq<byte>)
    requires |fields| == |m| && DecodeFields(fields, m, a).Some?
    ensures DecodeFields(fields, m, a + b) == DecodeFields(fields, DecodeFields(fields, m, a).value, b)
    decreases |a|
  {
    if a == [] {
      assert a + b == b;
    } else {
      DecodeRecordPrefix(fields, m, a, b);
      var r := DecodeRecord(fields, m, a);
      DecodeSplit(fields, r.value, r.rest, b);
    }
  }
}
