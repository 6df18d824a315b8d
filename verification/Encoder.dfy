/** The encoder of nanopb/pb_encode.c over its streams: what the counting pass counts and the writing pass writes. */
module Encoder {
  import opened Arith
  import opened Varints
  import opened Schema
  import opened Wire
  import opened RoundTrip
  import opened Writer

  // Messages as structs hold them: counts and lengths may exceed the capacities

  predicate HeldValue(l: LType, v: Value) {
    match l
    case Bytes(_) => v.BytesV? && |v.bytes| <= SIZE_MAX
    case String(bufsize) => v.BytesV? && |v.bytes| <= bufsize && 0 !in v.bytes
    case Message(fields) => v.MsgV? && HeldSlots(fields, v.slots)
    case _ => ValidValue(l, v)
  }

  predicate HeldSlot(f: Field, s: Slot) {
    if f.ltype.Callback? then s.Calls?
    else match f.rule
      case Singular => s.One? && HeldValue(f.ltype, s.v)
      case Optional => s.Opt? && (s.o.Some? ==> HeldValue(f.ltype, s.o.value))
      case Repeated(_) => s.Rep? && forall v :: v in s.vs ==> HeldValue(f.ltype, v)
  }

  predicate HeldSlots(fields: Fields, m: Slots) {
    |fields| == |m| && (fields != [] ==> HeldSlot(fields[0], m[0]) && HeldSlots(fields[1..], m[1..]))
  }

  lemma {:induction false} SlotIsHeld(fields: Fields, m: Slots, i: nat)
    requires HeldSlots(fields, m) && i < |fields|
    ensures HeldSlot(fields[i], m[i])
  {
    if i == 0 {
    } else {
      SlotIsHeld(fields[1..], m[1..], i - 1);
    }
  }

  lemma {:induction false} ValidValueIsHeld(l: LType, v: Value)
    requires ValidLType(l) && ValidValue(l, v)
    ensures HeldValue(l, v)
  {
    match l
    case Message(fields) => ValidIsHeld(fields, v.slots);
    case _ =>
  }

  lemma {:induction false} ValidSlotIsHeld(f: Field, s: Slot)
    requires ValidField(f) && ValidSlot(f, s)
    ensures HeldSlot(f, s)
  {
    match s
    case One(v) => ValidValueIsHeld(f.ltype, v);
    case Opt(o) =>
      if o.Some? {
        ValidValueIsHeld(f.ltype, o.value);
      }
    case Rep(vs) =>
      forall v | v in vs
        ensures HeldValue(f.ltype, v)
      {
        ValidValueIsHeld(f.ltype, v);
      }
    case Calls(_) =>
  }

  /** A message within its capacities is one that a struct can hold. */
  lemma {:induction false} ValidIsHeld(fields: Fields, m: Slots)
    requires ValidFields(fields) && ValidSlots(fields, m)
    ensures HeldSlots(fields, m)
  {
    if fields == [] {
    } else {
      ValidSlotIsHeld(fields[0], m[0]);
      ValidIsHeld(fields[1..], m[1..]);
    }
  }

  /** What is left out is within its capacities. */
  lemma {:induction false} OmittedIsValid(l: LType, v: Value)
    requires ValidLType(l) && HeldValue(l, v) && Omitted(l, v)
    ensures ValidValue(l, v)
  {
    match l
    case Message(fields) => AllOmittedIsValid(fields, v.slots);
    case _ =>
  }

  lemma {:induction false} OmittedSlotIsValid(f: Field, s: Slot)
    requires ValidField(f) && HeldSlot(f, s) && OmittedSlot(f, s)
    ensures ValidSlot(f, s)
  {
    if s.One? {
      OmittedIsValid(f.ltype, s.v);
    }
  }

  lemma {:induction false} AllOmittedIsValid(fields: Fields, m: Slots)
    requires ValidFields(fields) && HeldSlots(fields, m) && AllOmitted(fields, m)
    ensures ValidSlots(fields, m)
  {
    if fields == [] {
    } else {
      OmittedSlotIsValid(fields[0], m[0]);
      AllOmittedIsValid(fields[1..], m[1..]);
    }
  }

  // Scalars

  lemma {:induction false} Append(a: seq<byte>, b: seq<byte>, c: seq<byte>)
    ensures a + b + c == a + (b + c)
  {}

  method EncodeVarint(out: OStream, value: u64) returns (ok: bool)
    requires out.Valid()
    modifies out, out.Repr()
    ensures out.Valid() && out.Confined()
    ensures ok <==> old(out.Room(|Varint(value)|))
    ensures ok ==> out.log == old(out.log) + Varint(value)
  {
    if value <= 0x7F {
      ok := out.Write([value]);
    } else {
      var data := EncodeHalves(value % TWO32, value / TWO32);
      DivMul(value, TWO32);
      ok := out.Write(data);
    }
  }

  method EncodeTag(out: OStream, tag: nat, wireType: nat) returns (ok: bool)
    requires out.Valid() && tag < 0x2000_0000 && wireType < 8
    modifies out, out.Repr()
    ensures out.Valid() && out.Confined()
    ensures ok <==> old(out.Room(|Tag(tag, wireType)|))
    ensures ok ==> out.log == old(out.log) + Tag(tag, wireType)
  {
    TagBits(tag, wireType);
    ok := EncodeVarint(out, BitOr(tag * 8, wireType));
  }

  lemma {:induction false} TagBits(tag: nat, wireType: nat)
    requires wireType < 8
    ensures BitOr(tag * 8, wireType) == tag * 8 + wireType
  {
    assert Pow(2, 3) == 8;
    BitOrDisjoint(tag, wireType, 3);
  }

  method EncodeString(out: OStream, data: seq<byte>) returns (ok: bool)
    requires out.Valid() && |data| < TWO32
    modifies out, out.Repr()
    ensures out.Valid() && out.Confined()
    ensures ok <==> old(out.Room(|Delimited(data)|))
    ensures ok ==> out.log == old(out.log) + Delimited(data)
  {
    ghost var log := out.log;
    ok := EncodeVarint(out, |data|);
    if ok {
      ok := out.Write(data);
      Append(log, Varint(|data|), data);
    }
  }

  method EncodeInteger(out: OStream, l: LType, i: int) returns (ok: bool)
    requires out.Valid() && (l.Bool? || l.Int? || l.UInt? || l.SInt?) && ValidLType(l) && ValidValue(l, IntV(i))
    modifies out, out.Repr()
    ensures out.Valid() && out.Confined()
    ensures ok <==> old(out.Room(|EncodeValue(l, IntV(i))|))
    ensures ok ==> out.log == old(out.log) + EncodeValue(l, IntV(i))
  {
    if l.SInt? {
      ZigZagRoundTrip(i);
      ok := EncodeVarint(out, ZigZag(i));
    } else if l.Int? {
      ok := EncodeVarint(out, Unsigned64(i));
    } else {
      ok := EncodeVarint(out, i);
    }
  }

  method EncodeFixed(out: OStream, l: LType, i: int) returns (ok: bool)
    requires out.Valid() && (l.Fixed32? || l.Fixed64?) && ValidValue(l, IntV(i))
    modifies out, out.Repr()
    ensures out.Valid() && out.Confined()
    ensures ok <==> old(out.Room(|EncodeValue(l, IntV(i))|))
    ensures ok ==> out.log == old(out.log) + EncodeValue(l, IntV(i))
  {
    ok := out.Write(LittleEndian(i, if l.Fixed32? then 4 else 8));
  }

  method EncodeScalar(out: OStream, l: LType, v: Value) returns (ok: bool)
    requires out.Valid() && Packable(l) && ValidLType(l) && ValidValue(l, v)
    modifies out, out.Repr()
    ensures out.Valid() && out.Confined()
    ensures ok <==> old(out.Room(|EncodeValue(l, v)|))
    ensures ok ==> out.log == old(out.log) + EncodeValue(l, v)
  {
    if l.Fixed32? || l.Fixed64? {
      ok := EncodeFixed(out, l, v.i);
    } else {
      ok := EncodeInteger(out, l, v.i);
    }
  }

  // Packed arrays

  lemma {:induction false} FixedPackedSize(l: LType, vs: seq<Value>)
    requires l.Fixed32? || l.Fixed64?
    requires forall v :: v in vs ==> v.IntV?
    ensures |EncodePacked(l, vs)| == (if l.Fixed32? then 4 else 8) * |vs|
  {
    if vs == [] {
    } else {
      assert vs[0] in vs;
      assert forall v :: v in vs[1..] ==> v in vs;
      FixedPackedSize(l, vs[1..]);
    }
  }

  lemma {:induction false} PackedSplit(l: LType, vs: seq<Value>, i: nat)
    requires i < |vs|
    ensures EncodePacked(l, vs[..i + 1]) == EncodePacked(l, vs[..i]) + EncodeValue(l, vs[i])
  {
    if i == 0 {
      assert vs[..1] == [vs[0]] && vs[..0] == [] && [vs[0]][1..] == [];
    } else {
      PackedSplit(l, vs[1..], i - 1);
      assert vs[..i + 1][1..] == vs[1..][..i] && vs[..i][1..] == vs[1..][..i - 1];
      Append(EncodeValue(l, vs[0]), EncodePacked(l, vs[1..][..i - 1]), EncodeValue(l, vs[i]));
    }
  }

  lemma {:induction false} PackedMonotone(l: LType, vs: seq<Value>, i: nat)
    requires i <= |vs|
    ensures |EncodePacked(l, vs[..i])| <= |EncodePacked(l, vs)|
    decreases |vs| - i
  {
    if i == |vs| {
      assert vs[..i] == vs;
    } else {
      PackedSplit(l, vs, i);
      PackedMonotone(l, vs, i + 1);
    }
  }

  /** The items one after another, without tags. */
  method EncodeItemsPacked(out: OStream, l: LType, vs: seq<Value>) returns (ok: bool)
    requires out.Valid() && Packable(l) && ValidLType(l) && forall v :: v in vs ==> ValidValue(l, v)
    modifies out, out.Repr()
    ensures out.Valid() && out.Confined()
    ensures ok <==> old(out.Room(|EncodePacked(l, vs)|))
    ensures ok ==> out.log == old(out.log) + EncodePacked(l, vs)
  {
    ghost var log := out.log;
    for i := 0 to |vs|
      invariant out.Valid() && out.Confined() && out.log == log + EncodePacked(l, vs[..i])
      modifies out, out.Repr()
    {
      PackedSplit(l, vs, i);
      PackedMonotone(l, vs, i + 1);
      ok := EncodeScalar(out, l, vs[i]);
      if !ok {
        return;
      }
      Append(log, EncodePacked(l, vs[..i]), EncodeValue(l, vs[i]));
    }
    assert vs[..|vs|] == vs;
    ok := true;
  }

  /** The size of a packed array: a product, or a counting pass over its items. */
  method PackedSize(l: LType, vs: seq<Value>) returns (size: nat)
    requires Packable(l) && ValidLType(l) && forall v :: v in vs ==> ValidValue(l, v)
    ensures size == |EncodePacked(l, vs)|
  {
    if l.Fixed32? || l.Fixed64? {
      FixedPackedSize(l, vs);
      size := if l.Fixed32? then 4 * |vs| else 8 * |vs|;
    } else {
      var counter := new OStream.Counting();
      var _ := EncodeItemsPacked(counter, l, vs);
      size := counter.written;
    }
  }

  // Fields

  /**
   * pb_encode_submessage: a counting pass, the length, and a writing pass into a part of the buffer
   * of exactly that length. The two passes agree, so the size never changes between them.
   */
  method EncodeSubmessage(out: OStream, fields: Fields, m: Slots) returns (ok: bool, sizeChanged: bool)
    requires out.Valid() && ValidFields(fields) && HeldSlots(fields, m) && |Encode(fields, m)| < TWO32
    modifies out, out.Repr()
    ensures out.Valid() && out.Confined()
    ensures ok <==> ValidSlots(fields, m) && old(out.Room(|Delimited(Encode(fields, m))|))
    ensures ok ==> out.log == old(out.log) + Delimited(Encode(fields, m))
    ensures !sizeChanged
    decreases fields, 5
  {
    ghost var log := out.log;
    ghost var content := Encode(fields, m);
    var counter := new OStream.Counting();
    var status := EncodeMessage(counter, fields, m);
    if !status {
      return false, false;
    }
    var size := counter.written;
    ok := EncodeVarint(out, size);
    if !ok {
      return false, false;
    }
    Append(log, Varint(size), content);
    if out.Sizing() {
      out.Count(size, content);
      return true, false;
    }
    if out.written + size > out.maxSize {
      return false, false;
    }
    status, sizeChanged := EncodeContent(out, fields, m, size);
    ok := !sizeChanged && status;
  }

  /** The writing pass, through a stream over the next `size` bytes of the buffer. */
  method EncodeContent(out: OStream, fields: Fields, m: Slots, size: nat) returns (status: bool, sizeChanged: bool)
    requires out.Valid() && !out.Sizing() && ValidFields(fields) && ValidSlots(fields, m) && HeldSlots(fields, m)
    requires size == |Encode(fields, m)| < TWO32 && out.written + size <= out.maxSize
    modifies out, out.Repr()
    ensures out.Valid() && out.Confined()
    ensures status && !sizeChanged && out.log == old(out.log) + Encode(fields, m)
    decreases fields, 4
  {
    var sub := new OStream.Over(out.buf, out.pos, size);
    status := EncodeMessage(sub, fields, m);
    Adjacent(out.buf[..], out.start, out.pos, sub.pos);
    out.written := out.written + sub.written;
    out.pos := sub.pos;
    out.log := out.log + sub.log;
    sizeChanged := sub.written != size;
  }

  lemma {:induction false} Adjacent(buf: seq<byte>, a: nat, b: nat, c: nat)
    requires a <= b <= c <= |buf|
    ensures buf[a..c] == buf[a..b] + buf[b..c]
  {}

  /** The item behind a tag. */
  method EncodeContents(out: OStream, l: LType, v: Value) returns (ok: bool)
    requires out.Valid() && ValidLType(l) && !l.Callback? && HeldValue(l, v) && |EncodeValue(l, v)| < TWO32
    modifies out, out.Repr()
    ensures out.Valid() && out.Confined()
    ensures ok <==> ValidValue(l, v) && old(out.Room(|EncodeValue(l, v)|))
    ensures ok ==> out.log == old(out.log) + EncodeValue(l, v)
    decreases l, 0
  {
    if Packable(l) {
      ok := EncodeScalar(out, l, v);
      return;
    }
    match l
    case Bytes(maxSize) =>
      if |v.bytes| > Padded(maxSize) {
        return false;
      }
      ok := EncodeString(out, v.bytes);
    case String(bufsize) =>
      if |v.bytes| > bufsize - 1 {
        return false;
      }
      ok := EncodeString(out, v.bytes);
    case FixedBytes(_) => ok := EncodeString(out, v.bytes);
    case Message(fields) =>
      var status, _ := EncodeSubmessage(out, fields, v.slots);
      ok := status;
  }

  /** encode_basic_field: a tag and an item. */
  method EncodeBasic(out: OStream, f: Field, v: Value) returns (ok: bool)
    requires out.Valid() && ValidField(f) && !f.ltype.Callback? && HeldValue(f.ltype, v) && |EncodeItem(f, v)| < TWO32
    modifies out, out.Repr()
    ensures out.Valid() && out.Confined()
    ensures ok <==> ValidValue(f.ltype, v) && old(out.Room(|EncodeItem(f, v)|))
    ensures ok ==> out.log == old(out.log) + EncodeItem(f, v)
    decreases f, 0
  {
    ghost var log := out.log;
    ok := EncodeTag(out, f.tag, WireType(f.ltype));
    if ok {
      ok := EncodeContents(out, f.ltype, v);
      Append(log, Tag(f.tag, WireType(f.ltype)), EncodeValue(f.ltype, v));
    }
  }

  /** The packed branch of encode_array. */
  method EncodePackedArray(out: OStream, f: Field, vs: seq<Value>) returns (ok: bool)
    requires out.Valid() && ValidField(f) && Packable(f.ltype) && vs != []
    requires forall v :: v in vs ==> ValidValue(f.ltype, v)
    requires |EncodePacked(f.ltype, vs)| < TWO32
    modifies out, out.Repr()
    ensures out.Valid() && out.Confined()
    ensures
      var bs := Tag(f.tag, WT_STRING) + Delimited(EncodePacked(f.ltype, vs));
      (ok <==> old(out.Room(|bs|))) && (ok ==> out.log == old(out.log) + bs)
  {
    ghost var log, content := out.log, EncodePacked(f.ltype, vs);
    ok := EncodeTag(out, f.tag, WT_STRING);
    if !ok {
      return;
    }
    var size := PackedSize(f.ltype, vs);
    ghost var log' := out.log;
    ok := EncodeVarint(out, size);
    if !ok {
      return;
    }
    if out.Sizing() {
      out.Count(size, content);
    } else {
      ok := EncodeItemsPacked(out, f.ltype, vs);
    }
    Append(log', Varint(size), content);
    Append(log, Tag(f.tag, WT_STRING), Delimited(content));
  }

  lemma {:induction false} ItemsFrom(f: Field, vs: seq<Value>, i: nat)
    requires i < |vs|
    ensures EncodeItems(f, vs[i..]) == EncodeItem(f, vs[i]) + EncodeItems(f, vs[i + 1..])
  {
    assert vs[i..][1..] == vs[i + 1..];
  }

  /** The unpacked branch of encode_array. */
  method EncodeUnpackedArray(out: OStream, f: Field, vs: seq<Value>) returns (ok: bool)
    requires out.Valid() && ValidField(f) && !Packable(f.ltype) && !f.ltype.Callback?
    requires forall v :: v in vs ==> HeldValue(f.ltype, v)
    requires |EncodeItems(f, vs)| < TWO32
    modifies out, out.Repr()
    ensures out.Valid() && out.Confined()
    ensures ok <==> AllValid(f.ltype, vs) && old(out.Room(|EncodeItems(f, vs)|))
    ensures ok ==> out.log == old(out.log) + EncodeItems(f, vs)
    decreases f, 1
  {
    ghost var log, done := out.log, [];
    assert vs[0..] == vs;
    for i := 0 to |vs|
      invariant out.Valid() && out.Confined() && out.log == log + done
      invariant EncodeItems(f, vs) == done + EncodeItems(f, vs[i..])
      invariant AllValid(f.ltype, vs[..i])
      modifies out, out.Repr()
    {
      ItemsFrom(f, vs, i);
      Append(log, done, EncodeItem(f, vs[i]));
      Append(done, EncodeItem(f, vs[i]), EncodeItems(f, vs[i + 1..]));
      ok := EncodeBasic(out, f, vs[i]);
      if !ok {
        return;
      }
      assert vs[..i + 1] == vs[..i] + [vs[i]];
      done := done + EncodeItem(f, vs[i]);
    }
    assert vs[..|vs|] == vs;
    ok := true;
  }

  /** encode_array. */
  method EncodeArray(out: OStream, f: Field, vs: seq<Value>) returns (ok: bool)
    requires out.Valid() && ValidField(f) && !f.ltype.Callback? && f.rule.Repeated? && HeldSlot(f, Rep(vs))
    requires |EncodeField(f, Rep(vs))| < TWO32
    modifies out, out.Repr()
    ensures out.Valid() && out.Confined()
    ensures ok <==> ValidSlot(f, Rep(vs)) && old(out.Room(|EncodeField(f, Rep(vs))|))
    ensures ok ==> out.log == old(out.log) + EncodeField(f, Rep(vs))
    decreases f, 2
  {
    if |vs| == 0 {
      assert out.log == out.log + [];
      return true;
    }
    if |vs| > f.rule.maxCount {
      return false;
    }
    if Packable(f.ltype) {
      ok := EncodePackedArray(out, f, vs);
    } else {
      ok := EncodeUnpackedArray(out, f, vs);
    }
  }

  /** encode_field: presence, then contents. */
  method EncodeKnown(out: OStream, f: Field, s: Slot) returns (ok: bool)
    requires out.Valid() && ValidField(f) && HeldSlot(f, s) && |EncodeField(f, s)| < TWO32
    modifies out, out.Repr()
    ensures out.Valid() && out.Confined()
    ensures ok <==> ValidSlot(f, s) && old(out.Room(|EncodeField(f, s)|))
    ensures ok ==> out.log == old(out.log) + EncodeField(f, s)
    decreases f, 3
  {
    if f.rule.Repeated? && !f.ltype.Callback? {
      ok := EncodeArray(out, f, s.vs);
    } else if OmittedSlot(f, s) {
      OmittedSlotIsValid(f, s);
      assert out.log == out.log + [];
      ok := true;
    } else {
      ok := EncodeBasic(out, f, if f.rule.Singular? then s.v else s.o.value);
    }
  }

  /**
   * pb_encode, on either kind of stream: it succeeds exactly when every count and length is within its
   * capacity and the encoding fits, and then emits exactly the encoding.
   */
  method EncodeMessage(out: OStream, fields: Fields, m: Slots) returns (ok: bool)
    requires out.Valid() && ValidFields(fields) && HeldSlots(fields, m) && |Encode(fields, m)| < TWO32
    modifies out, out.Repr()
    ensures out.Valid() && out.Confined()
    ensures ok <==> ValidSlots(fields, m) && old(out.Room(|Encode(fields, m)|))
    ensures ok ==> out.log == old(out.log) + Encode(fields, m)
    decreases fields, 3
  {
    ghost var log, done := out.log, [];
    assert fields[0..] == fields && m[0..] == m;
    for k := 0 to |fields|
      invariant out.Valid() && out.Confined() && out.log == log + done
      invariant Encode(fields, m) == done + Encode(fields[k..], m[k..])
      invariant ValidSlots(fields, m) <==> ValidSlots(fields[k..], m[k..])
      modifies out, out.Repr()
    {
      FieldIsValid(fields, k);
      SlotIsHeld(fields, m, k);
      TailsOf(fields, m, k);
      assert fields[k..][1..] == fields[k + 1..] && m[k..][1..] == m[k + 1..];
      Append(log, done, EncodeField(fields[k], m[k]));
      Append(done, EncodeField(fields[k], m[k]), Encode(fields[k + 1..], m[k + 1..]));
      ok := EncodeKnown(out, fields[k], m[k]);
      if !ok {
        return;
      }
      done := done + EncodeField(fields[k], m[k]);
    }
    ok := true;
  }

  /** pb_get_encoded_size. */
  method EncodedSize(fields: Fields, m: Slots) returns (ok: bool, size: nat)
    requires ValidFields(fields) && HeldSlots(fields, m) && |Encode(fields, m)| < TWO32
    ensures ok <==> ValidSlots(fields, m)
    ensures ok ==> size == |Encode(fields, m)|
  {
    var counter := new OStream.Counting();
    ok := EncodeMessage(counter, fields, m);
    size := counter.written;
  }

  /** pb_encode into a buffer: it succeeds exactly when the encoding fits, and the buffer then starts with it. */
  method EncodeToBuffer(fields: Fields, m: Slots, buf: array<byte>) returns (ok: bool, written: nat)
    requires ValidFields(fields) && HeldSlots(fields, m) && |Encode(fields, m)| < TWO32
    modifies buf
    ensures ok <==> ValidSlots(fields, m) && |Encode(fields, m)| <= buf.Length
    ensures ok ==> written == |Encode(fields, m)| && buf[..written] == Encode(fields, m)
  {
    var out := new OStream.Over(buf, 0, buf.Length);
    ok := EncodeMessage(out, fields, m);
    written := out.written;
  }
}
