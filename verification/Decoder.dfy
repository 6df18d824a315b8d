/** Substreams, field decoding and the message loop of nanopb/pb_decode.c, proved to compute Wire.DecodeFields. */
module Decoder {
  import opened Arith
  import opened Varints
  import opened Schema
  import opened Wire
  import opened Capacity
  import opened Reader

  // Skipping

  /** pb_read without a destination. */
  method Skip(stream: IStream, count: nat) returns (ok: bool)
    requires stream.Valid()
    modifies stream
    ensures stream.Valid() && stream.End() <= old(stream.End())
    ensures ok <==> count <= old(stream.left)
    ensures ok ==> stream.At(old(stream.End()), old(stream.Rest())[count..])
    ensures !ok ==> unchanged(stream)
  {
    var read, _ := Read(stream, count);
    return read;
  }

  method SkipVarint(stream: IStream) returns (ok: bool)
    requires stream.Valid()
    modifies stream
    ensures stream.Valid() && stream.End() <= old(stream.End())
    ensures ok <==> VarintLength(old(stream.Rest())) > 0
    ensures ok ==> stream.At(old(stream.End()), old(stream.Rest())[VarintLength(old(stream.Rest()))..])
  {
    ghost var bs, end := stream.Rest(), stream.End();
    ghost var k := 0;
    while true
      invariant k <= |bs| && stream.At(end, bs[k..])
      invariant forall i :: 0 <= i < k ==> bs[i] >= 128
      decreases stream.left
    {
      FlaggedPrefix(bs, k);
      var read, data := Read(stream, 1);
      if !read {
        return false;
      }
      k := k + 1;
      assert bs[k - 1..][1..] == bs[k..];
      if data[0] < 128 {
        return true;
      }
    }
  }

  method SkipString(stream: IStream) returns (ok: bool)
    requires stream.Valid()
    modifies stream
    ensures stream.Valid() && stream.End() <= old(stream.End())
    ensures ok <==> TakeDelimited(old(stream.Rest())).Parsed?
    ensures ok ==> stream.At(old(stream.End()), TakeDelimited(old(stream.Rest())).rest)
  {
    var read, _, length := DecodeVarint32(stream);
    if !read {
      return false;
    }
    ok := Skip(stream, length);
  }

  method SkipUnknown(stream: IStream, wireType: nat) returns (ok: bool)
    requires stream.Valid()
    modifies stream
    ensures stream.Valid() && stream.End() <= old(stream.End())
    ensures ok <==> SkipField(wireType, old(stream.Rest())).Parsed?
    ensures ok ==> stream.At(old(stream.End()), SkipField(wireType, old(stream.Rest())).rest)
  {
    if wireType == WT_VARINT {
      ok := SkipVarint(stream);
    } else if wireType == WT_64BIT {
      ok := Skip(stream, 8);
    } else if wireType == WT_STRING {
      ok := SkipString(stream);
    } else if wireType == WT_32BIT {
      ok := Skip(stream, 4);
    } else {
      ok := false;
    }
  }

  /** The bytes of a scalar, collected for a callback: at most ten of a varint. */
  method ReadRawVarint(stream: IStream) returns (ok: bool, raw: seq<byte>)
    requires stream.Valid()
    modifies stream
    ensures stream.Valid() && stream.End() <= old(stream.End())
    ensures ok <==> TakeRaw(WT_VARINT, old(stream.Rest())).Parsed?
    ensures ok ==>
              && raw == TakeRaw(WT_VARINT, old(stream.Rest())).value
              && stream.At(old(stream.End()), TakeRaw(WT_VARINT, old(stream.Rest())).rest)
  {
    ghost var bs, end := stream.Rest(), stream.End();
    raw := [];
    while true
      invariant |raw| <= |bs| && raw == bs[..|raw|] && |raw| <= 10
      invariant stream.At(end, bs[|raw|..])
      invariant forall i :: 0 <= i < |raw| ==> bs[i] >= 128
      decreases stream.left
    {
      FlaggedPrefix(bs, |raw|);
      if |raw| + 1 > 10 {
        return false, [];
      }
      var read, data := Read(stream, 1);
      if !read {
        return false, [];
      }
      assert bs[|raw|..][1..] == bs[|raw| + 1..];
      raw := raw + data;
      if data[0] < 128 {
        return true, raw;
      }
    }
  }

  // Substreams

  /** The substream covers the delimited content; the parent keeps only what lies behind it. */
  ghost predicate Nested(stream: IStream, sub: IStream, end: nat, content: seq<byte>, rest: seq<byte>)
    reads stream, sub
  {
    && sub != stream && sub.buf == stream.buf && sub.Valid() && sub.Rest() == content
    && sub.End() + stream.left == end <= |stream.buf| && stream.buf[sub.End()..end] == rest
  }

  lemma {:induction false} SliceSplit(buf: seq<byte>, pos: nat, size: nat, left: nat)
    requires pos + left <= |buf| && size <= left
    ensures buf[pos..pos + left][..size] == buf[pos..pos + size]
    ensures buf[pos..pos + left][size..] == buf[pos + size..pos + left]
  {}

  method Carve(stream: IStream, size: nat) returns (sub: IStream)
    requires stream.Valid() && size <= stream.left
    modifies stream
    ensures stream.Valid() && fresh(sub) && stream.End() <= old(stream.End()) && sub.left == size
    ensures Nested(stream, sub, old(stream.End()), old(stream.Rest())[..size], old(stream.Rest())[size..])
  {
    SliceSplit(stream.buf, stream.pos, size, stream.left);
    sub := new IStream(stream.buf, stream.pos, size);
    stream.left := stream.left - size;
  }

  method MakeSubstream(stream: IStream) returns (ok: bool, sub: IStream)
    requires stream.Valid()
    modifies stream
    ensures stream.Valid() && fresh(sub) && stream.End() <= old(stream.End())
    ensures ok <==> TakeDelimited(old(stream.Rest())).Parsed?
    ensures ok ==>
              var r := TakeDelimited(old(stream.Rest()));
              Nested(stream, sub, old(stream.End()), r.value, r.rest) && sub.left < old(stream.left)
  {
    var read, _, size := DecodeVarint32(stream);
    if !read || stream.left < size {
      sub := new IStream(stream.buf, stream.pos, stream.left);
      return false, sub;
    }
    sub := Carve(stream, size);
    ok := true;
  }

  /** Whatever the substream left unread is passed over, and the parent resumes behind it. */
  method CloseSubstream(stream: IStream, sub: IStream)
    requires sub != stream && sub.buf == stream.buf && sub.Valid()
    requires sub.End() + stream.left <= |stream.buf|
    modifies stream, sub
    ensures stream.Valid() && stream.left == old(stream.left) && stream.End() == old(sub.End() + stream.left)
    ensures stream.Rest() == stream.buf[old(sub.End())..old(sub.End() + stream.left)]
  {
    if sub.left > 0 {
      var _ := Skip(sub, sub.left);
    }
    stream.pos := sub.pos;
  }

  // Integers

  lemma {:induction false} ClampUnsigned(w: u64, size: nat)
    requires IntSize(size)
    ensures w % Range(size) == w <==> FitsUnsigned(w, size)
  {
    if FitsUnsigned(w, size) {
      SmallMod(w, Range(size));
    }
  }

  /** Assignment to a signed variable of the given size. */
  function Clamped(i: int, size: nat): int
    requires IntSize(size)
  {
    (i + Range(size) / 2) % Range(size) - Range(size) / 2
  }

  lemma {:induction false} ClampSigned(i: int, size: nat)
    requires IntSize(size)
    ensures Clamped(i, size) == i <==> FitsSigned(i, size)
  {
    if FitsSigned(i, size) {
      SmallMod(i + Range(size) / 2, Range(size));
    }
  }

  method DecodeInteger(stream: IStream, l: LType) returns (ok: bool, v: Value)
    requires stream.Valid() && (l.Int? || l.UInt? || l.SInt?) && ValidLType(l)
    modifies stream
    ensures stream.Valid() && stream.End() <= old(stream.End())
    ensures ok <==> DecodeInt(l, WT_VARINT, old(stream.Rest())).Parsed?
    ensures ok ==>
              && v == DecodeInt(l, WT_VARINT, old(stream.Rest())).value
              && stream.At(old(stream.End()), DecodeInt(l, WT_VARINT, old(stream.Rest())).rest)
  {
    var read, w := DecodeVarint(stream);
    if !read {
      return false, IntV(0);
    }
    if l.UInt? {
      ClampUnsigned(w, l.size);
      var clamped := w % Range(l.size);
      return clamped == w, IntV(clamped);
    }
    var i := if l.SInt? then UnZigZag(w) else if l.size == 8 then Signed64(w) else Signed32(w % TWO32);
    ClampSigned(i, l.size);
    var clamped := Clamped(i, l.size);
    return clamped == i, IntV(clamped);
  }

  // Byte strings

  method DecodeByteString(stream: IStream, l: LType) returns (ok: bool, v: Value)
    requires stream.Valid() && (l.Bytes? || l.String? || l.FixedBytes?)
    modifies stream
    ensures stream.Valid() && stream.End() <= old(stream.End())
    ensures ok <==> DecodeBytes(l, old(stream.Rest())).Parsed?
    ensures ok ==>
              && v == DecodeBytes(l, old(stream.Rest())).value
              && stream.At(old(stream.End()), DecodeBytes(l, old(stream.Rest())).rest)
  {
    v := BytesV([]);
    var read, _, size := DecodeVarint32(stream);
    if !read {
      return false, v;
    }
    var data: seq<byte>;
    match l
    case Bytes(maxSize) =>
      if size > SIZE_MAX || size + 2 > 2 + Padded(maxSize) {
        return false, v;
      }
      ok, data := Read(stream, size);
      v := BytesV(data);
    case String(bufsize) =>
      if size == TWO32 - 1 || size + 1 > bufsize {
        return false, v;
      }
      ok, data := Read(stream, size);
      v := BytesV(CString(data));
    case FixedBytes(length) =>
      if size > SIZE_MAX {
        return false, v;
      }
      if size == 0 {
        return true, BytesV(ZeroBytes(length));
      }
      if size != length {
        return false, v;
      }
      ok, data := Read(stream, length);
      v := BytesV(data);
  }

  // Fields

  method DecodeBool(stream: IStream) returns (ok: bool, v: Value)
    requires stream.Valid()
    modifies stream
    ensures stream.Valid() && stream.End() <= old(stream.End())
    ensures ok <==> DecodeInt(Bool, WT_VARINT, old(stream.Rest())).Parsed?
    ensures ok ==>
              && v == DecodeInt(Bool, WT_VARINT, old(stream.Rest())).value
              && stream.At(old(stream.End()), DecodeInt(Bool, WT_VARINT, old(stream.Rest())).rest)
  {
    var read, _, n := DecodeVarint32(stream);
    return read, IntV(if n != 0 then 1 else 0);
  }

  method DecodeFixedWord(stream: IStream, n: nat, ghost expected: nat) returns (ok: bool, v: Value)
    requires stream.Valid() && n > 0
    modifies stream
    ensures stream.Valid() && stream.End() <= old(stream.End())
    ensures ok <==> DecodeFixed(n, expected, expected, old(stream.Rest())).Parsed?
    ensures ok ==>
              && v == DecodeFixed(n, expected, expected, old(stream.Rest())).value
              && stream.At(old(stream.End()), DecodeFixed(n, expected, expected, old(stream.Rest())).rest)
  {
    var read, data := Read(stream, n);
    return read, IntV(FromLittleEndian(data));
  }

  /** Wire types that decode_basic_field accepts for a type. */
  predicate Acceptable(l: LType, wireType: nat) {
    wireType == WireType(l) || (Packable(l) && wireType == WT_PACKED)
  }

  lemma {:induction false} WrongWireType(l: LType, current: Value, wireType: nat, bs: seq<byte>)
    requires !Acceptable(l, wireType)
    ensures DecodeValue(l, current, wireType, bs).Malformed?
  {}

  /** decode_basic_field: one item of any type, merged into what the struct holds. */
  method DecodeBasic(stream: IStream, l: LType, current: Value, wireType: nat) returns (ok: bool, v: Value)
    requires stream.Valid() && ValidLType(l) && ValidValue(l, current)
    modifies stream
    ensures stream.Valid() && stream.End() <= old(stream.End())
    ensures ok <==> DecodeValue(l, current, wireType, old(stream.Rest())).Parsed?
    ensures ok ==>
              && v == DecodeValue(l, current, wireType, old(stream.Rest())).value
              && stream.At(old(stream.End()), DecodeValue(l, current, wireType, old(stream.Rest())).rest)
    decreases stream.left, 1
  {
    if !Acceptable(l, wireType) {
      WrongWireType(l, current, wireType, stream.Rest());
      return false, current;
    }
    match l
    case Bool => ok, v := DecodeBool(stream);
    case Fixed32 => ok, v := DecodeFixedWord(stream, 4, WT_32BIT);
    case Fixed64 => ok, v := DecodeFixedWord(stream, 8, WT_64BIT);
    case Bytes(_) => ok, v := DecodeByteString(stream, l);
    case String(_) => ok, v := DecodeByteString(stream, l);
    case FixedBytes(_) => ok, v := DecodeByteString(stream, l);
    case Message(fields) => ok, v := DecodeSubmessage(stream, fields, current.slots);
    case Int(_) => ok, v := DecodeInteger(stream, l);
    case UInt(_) => ok, v := DecodeInteger(stream, l);
    case SInt(_) => ok, v := DecodeInteger(stream, l);
  }

  /** The content of a submessage, decoded through a substream. */
  method DecodeSubmessage(stream: IStream, fields: Fields, m: Slots) returns (ok: bool, v: Value)
    requires stream.Valid() && ValidFields(fields) && ValidSlots(fields, m)
    modifies stream
    ensures stream.Valid() && stream.End() <= old(stream.End())
    ensures
      var r := TakeDelimited(old(stream.Rest()));
      && (ok <==> r.Parsed? && DecodeFields(fields, m, r.value).Some?)
      && (ok ==> v == MsgV(DecodeFields(fields, m, r.value).value) && stream.At(old(stream.End()), r.rest))
    decreases stream.left, 0
  {
    v := MsgV(m);
    var made, sub := MakeSubstream(stream);
    if !made {
      return false, v;
    }
    var status, slots := DecodeInner(sub, fields, m);
    CloseSubstream(stream, sub);
    return status, MsgV(slots);
  }

  /** A packed array: items appended through a substream while there is room. */
  method DecodePackedItems(stream: IStream, l: LType, vs: seq<Value>, maxCount: nat)
    returns (ok: bool, items: seq<Value>)
    requires stream.Valid() && ValidLType(l) && Packable(l)
    modifies stream
    ensures stream.Valid() && stream.End() <= old(stream.End())
    ensures
      var r := TakeDelimited(old(stream.Rest()));
      && (ok <==> r.Parsed? && DecodePacked(l, vs, maxCount, r.value).Some?)
      && (ok ==> items == DecodePacked(l, vs, maxCount, r.value).value && stream.At(old(stream.End()), r.rest))
    decreases stream.left, 2
  {
    items := vs;
    var made, sub := MakeSubstream(stream);
    if !made {
      return false, items;
    }
    ghost var content, subEnd := sub.Rest(), sub.End();
    ghost var parent, parentLeft := stream.End(), stream.left;
    var status := true;
    while sub.left > 0 && |items| < maxCount
      invariant sub.Valid() && sub.End() <= subEnd && sub.left <= |content|
      invariant stream.Valid() && stream.End() == parent && stream.left == parentLeft
      invariant status ==> sub.End() == subEnd
      invariant status ==> DecodePacked(l, items, maxCount, sub.Rest()) == DecodePacked(l, vs, maxCount, content)
      invariant !status ==> DecodePacked(l, vs, maxCount, content).None?
      modifies sub
      decreases status, sub.left
    {
      DefaultIsValidValue(l);
      var item;
      status, item := DecodeBasic(sub, l, DefaultValue(l), WT_PACKED);
      if !status {
        break;
      }
      items := items + [item];
    }
    if sub.left != 0 {
      return false, items;
    }
    CloseSubstream(stream, sub);
    return status, items;
  }

  /** A length-delimited field of a callback: the callback sees a substream and consumes it. */
  method DecodeDelimitedCall(stream: IStream) returns (ok: bool, payload: seq<byte>)
    requires stream.Valid()
    modifies stream
    ensures stream.Valid() && stream.End() <= old(stream.End())
    ensures
      var r := TakeDelimited(old(stream.Rest()));
      (ok <==> r.Parsed?) && (ok ==> payload == r.value && stream.At(old(stream.End()), r.rest))
  {
    var made, sub := MakeSubstream(stream);
    if !made {
      return false, [];
    }
    ok, payload := Read(sub, sub.left);
    CloseSubstream(stream, sub);
  }

  method ReadRaw(stream: IStream, wireType: nat) returns (ok: bool, raw: seq<byte>)
    requires stream.Valid()
    modifies stream
    ensures stream.Valid() && stream.End() <= old(stream.End())
    ensures
      var r := TakeRaw(wireType, old(stream.Rest()));
      (ok <==> r.Parsed?) && (ok ==> raw == r.value && stream.At(old(stream.End()), r.rest))
  {
    if wireType == WT_VARINT {
      ok, raw := ReadRawVarint(stream);
    } else if wireType == WT_64BIT {
      ok, raw := Read(stream, 8);
    } else if wireType == WT_32BIT {
      ok, raw := Read(stream, 4);
    } else {
      return false, [];
    }
  }

  /** decode_callback_field, with a callback that records the bytes it is given. */
  method DecodeCall(stream: IStream, calls: seq<Call>, wireType: nat) returns (ok: bool, s: Slot)
    requires stream.Valid()
    modifies stream
    ensures stream.Valid() && stream.End() <= old(stream.End())
    ensures
      var r := DecodeCallback(calls, wireType, old(stream.Rest()));
      (ok <==> r.Parsed?) && (ok ==> s == r.value && stream.At(old(stream.End()), r.rest))
  {
    var payload;
    if wireType == WT_STRING {
      ok, payload := DecodeDelimitedCall(stream);
    } else {
      ok, payload := ReadRaw(stream, wireType);
    }
    s := Calls(calls + [Call(wireType == WT_STRING, payload)]);
  }

  /** A record for an array: all items of a packed one, or one more item. */
  method DecodeRepeated(stream: IStream, f: Field, vs: seq<Value>, wireType: nat) returns (ok: bool, s: Slot)
    requires stream.Valid() && ValidField(f) && !f.ltype.Callback? && f.rule.Repeated?
    modifies stream
    ensures stream.Valid() && stream.End() <= old(stream.End())
    ensures
      var r := DecodeField(f, Rep(vs), wireType, old(stream.Rest()));
      (ok <==> r.Parsed?) && (ok ==> s == r.value && stream.At(old(stream.End()), r.rest))
    decreases stream.left, 3
  {
    if wireType == WT_STRING && Packable(f.ltype) {
      var items;
      ok, items := DecodePackedItems(stream, f.ltype, vs, f.rule.maxCount);
      s := Rep(items);
    } else if |vs| >= f.rule.maxCount {
      return false, Rep(vs);
    } else {
      DefaultIsValidValue(f.ltype);
      var v;
      ok, v := DecodeBasic(stream, f.ltype, DefaultValue(f.ltype), wireType);
      s := Rep(vs + [v]);
    }
  }

  /** decode_static_field and decode_callback_field: one record for a known field. */
  method DecodeKnown(stream: IStream, f: Field, s: Slot, wireType: nat) returns (ok: bool, s': Slot)
    requires stream.Valid() && ValidField(f) && ValidSlot(f, s)
    modifies stream
    ensures stream.Valid() && stream.End() <= old(stream.End())
    ensures ok <==> DecodeField(f, s, wireType, old(stream.Rest())).Parsed?
    ensures ok ==>
              && s' == DecodeField(f, s, wireType, old(stream.Rest())).value
              && stream.At(old(stream.End()), DecodeField(f, s, wireType, old(stream.Rest())).rest)
    decreases stream.left, 4
  {
    if f.ltype.Callback? {
      ok, s' := DecodeCall(stream, s.calls, wireType);
      return;
    }
    DefaultIsValidValue(f.ltype);
    var v: Value;
    match f.rule
    case Singular =>
      ok, v := DecodeBasic(stream, f.ltype, s.v, wireType);
      s' := One(v);
    case Optional =>
      ok, v := DecodeBasic(stream, f.ltype, if s.o.Some? then s.o.value else DefaultValue(f.ltype), wireType);
      s' := Opt(Some(v));
    case Repeated(_) => ok, s' := DecodeRepeated(stream, f, s.vs, wireType);
  }

  method DecodeTag(stream: IStream) returns (ok: bool, eof: bool, tag: nat, wireType: nat)
    requires stream.Valid()
    modifies stream
    ensures stream.Valid() && stream.End() <= old(stream.End())
    ensures ok <==> Read32(old(stream.Rest())).Parsed?
    ensures ok ==>
              && tag == Read32(old(stream.Rest())).value / 8 && wireType == Read32(old(stream.Rest())).value % 8
              && stream.At(old(stream.End()), Read32(old(stream.Rest())).rest)
    ensures eof <==> old(stream.left) == 0
  {
    var word;
    ok, eof, word := DecodeVarint32(stream);
    tag, wireType := word / 8, word % 8;
  }

  /** One turn of the loop in pb_decode_inner. */
  method DecodeNext(stream: IStream, fields: Fields, m: Slots) returns (ok: bool, m': Slots)
    requires stream.Valid() && stream.left > 0 && ValidFields(fields) && ValidSlots(fields, m)
    modifies stream
    ensures stream.Valid() && stream.End() <= old(stream.End())
    ensures ok <==> DecodeRecord(fields, m, old(stream.Rest())).Parsed?
    ensures ok ==>
              && m' == DecodeRecord(fields, m, old(stream.Rest())).value && ValidSlots(fields, m')
              && stream.At(old(stream.End()), DecodeRecord(fields, m, old(stream.Rest())).rest)
    decreases stream.left, 5
  {
    ghost var bs := stream.Rest();
    m' := m;
    var read, _, tag, wireType := DecodeTag(stream);
    if !read || tag == 0 {
      return false, m;
    }
    var i := Find(fields, tag);
    if i == |fields| {
      ok := SkipUnknown(stream, wireType);
    } else {
      FieldIsValid(fields, i);
      SlotIsValid(fields, m, i);
      var s;
      ok, s := DecodeKnown(stream, fields[i], m[i], wireType);
      m' := m[i := s];
    }
    if ok {
      RecordKeepsValid(fields, m, bs);
    }
  }

  /**
   * pb_decode_inner: succeeds exactly when every record is acceptable, and then has consumed the stream,
   * holds the decoded message and has kept every count and length within the capacity of the struct.
   */
  method DecodeInner(stream: IStream, fields: Fields, m: Slots) returns (ok: bool, m': Slots)
    requires stream.Valid() && ValidFields(fields) && ValidSlots(fields, m)
    modifies stream
    ensures stream.Valid() && stream.End() <= old(stream.End())
    ensures ok <==> DecodeFields(fields, m, old(stream.Rest())).Some?
    ensures ok ==> m' == DecodeFields(fields, m, old(stream.Rest())).value && ValidSlots(fields, m')
    ensures ok ==> stream.At(old(stream.End()), [])
    decreases stream.left, 6
  {
    ghost var bs, end := stream.Rest(), stream.End();
    m' := m;
    while stream.left > 0
      invariant stream.Valid() && stream.End() == end && stream.left <= |bs| && ValidSlots(fields, m')
      invariant DecodeFields(fields, m', stream.Rest()) == DecodeFields(fields, m, bs)
      decreases stream.left
    {
      ok, m' := DecodeNext(stream, fields, m');
      if !ok {
        return false, m';
      }
    }
    assert stream.Rest() == [];
    ok := true;
  }

  /** pb_decode: the message starts from its defaults. */
  method DecodeMessage(stream: IStream, fields: Fields) returns (ok: bool, m: Slots)
    requires stream.Valid() && ValidFields(fields)
    modifies stream
    ensures ok <==> Decode(fields, old(stream.Rest())).Some?
    ensures ok ==> m == Decode(fields, old(stream.Rest())).value && ValidSlots(fields, m)
    ensures ok ==> stream.At(old(stream.End()), [])
  {
    DefaultIsValid(fields);
    ok, m := DecodeInner(stream, fields, DefaultSlots(fields));
  }
}
