/** Whatever bytes arrive, the decoder stays within the capacities of the struct, and when within the declared sizes. */
module Capacity {
  import opened Arith
  import opened Varints
  import opened Schema
  import opened Wire
  import opened RoundTrip

  lemma {:induction false} IntIsValid(l: LType, wireType: nat, bs: seq<byte>)
    requires l.Bool? || l.Int? || l.UInt? || l.SInt?
    requires DecodeInt(l, wireType, bs).Parsed?
    ensures ValidValue(l, DecodeInt(l, wireType, bs).value)
  {}

  lemma {:induction false} FixedIsValid(n: nat, expected: nat, wireType: nat, bs: seq<byte>)
    requires n == 4 || n == 8
    requires DecodeFixed(n, expected, wireType, bs).Parsed?
    ensures DecodeFixed(n, expected, wireType, bs).value.IntV?
    ensures 0 <= DecodeFixed(n, expected, wireType, bs).value.i < if n == 4 then TWO32 else TWO64
  {
    Pow256Words();
    FromLittleEndianBound(bs[..n]);
  }

  lemma {:induction false} BytesAreValid(l: LType, bs: seq<byte>)
    requires l.Bytes? || l.String? || l.FixedBytes?
    requires DecodeBytes(l, bs).Parsed?
    ensures ValidValue(l, DecodeBytes(l, bs).value)
  {}

  lemma {:induction false} ScalarIsValid(l: LType, current: Value, wireType: nat, bs: seq<byte>)
    requires Packable(l) && DecodeValue(l, current, wireType, bs).Parsed?
    ensures ValidValue(l, DecodeValue(l, current, wireType, bs).value)
  {
    if l.Fixed32? {
      FixedIsValid(4, WT_32BIT, wireType, bs);
    } else if l.Fixed64? {
      FixedIsValid(8, WT_64BIT, wireType, bs);
    } else {
      IntIsValid(l, wireType, bs);
    }
  }

  lemma {:induction false} ValueIsValid(l: LType, current: Value, wireType: nat, bs: seq<byte>)
    requires ValidLType(l) && ValidValue(l, current) && DecodeValue(l, current, wireType, bs).Parsed?
    ensures ValidValue(l, DecodeValue(l, current, wireType, bs).value)
    decreases |bs|, 0
  {
    if Packable(l) {
      ScalarIsValid(l, current, wireType, bs);
    } else if l.Message? {
      var content := TakeDelimited(bs).value;
      DecodeKeepsValid(l.fields, current.slots, content);
    } else {
      BytesAreValid(l, bs);
    }
  }

  lemma {:induction false} AppendValid(l: LType, vs: seq<Value>, v: Value)
    requires AllValid(l, vs) && ValidValue(l, v)
    ensures AllValid(l, vs + [v])
  {}

  lemma {:induction false} PackedIsValid(l: LType, vs: seq<Value>, maxCount: nat, content: seq<byte>)
    requires Packable(l) && |vs| <= maxCount && AllValid(l, vs)
    requires DecodePacked(l, vs, maxCount, content).Some?
    ensures |DecodePacked(l, vs, maxCount, content).value| <= maxCount
    ensures AllValid(l, DecodePacked(l, vs, maxCount, content).value)
    decreases |content|
  {
    if content == [] {
    } else {
      var r := DecodeValue(l, DefaultValue(l), WT_PACKED, content);
      ScalarIsValid(l, DefaultValue(l), WT_PACKED, content);
      AppendValid(l, vs, r.value);
      PackedIsValid(l, vs + [r.value], maxCount, r.rest);
    }
  }

  lemma {:induction false} RepeatedIsValid(f: Field, vs: seq<Value>, wireType: nat, bs: seq<byte>)
    requires ValidField(f) && !f.ltype.Callback? && f.rule.Repeated?
    requires |vs| <= f.rule.maxCount && AllValid(f.ltype, vs) && DecodeField(f, Rep(vs), wireType, bs).Parsed?
    ensures
      var s := DecodeField(f, Rep(vs), wireType, bs).value;
      s.Rep? && |s.vs| <= f.rule.maxCount && AllValid(f.ltype, s.vs)
    decreases |bs|, 1
  {
    if wireType == WT_STRING && Packable(f.ltype) {
      PackedIsValid(f.ltype, vs, f.rule.maxCount, TakeDelimited(bs).value);
    } else {
      DefaultIsValidValue(f.ltype);
      ValueIsValid(f.ltype, DefaultValue(f.ltype), wireType, bs);
      AppendValid(f.ltype, vs, DecodeValue(f.ltype, DefaultValue(f.ltype), wireType, bs).value);
    }
  }

  lemma {:induction false} FieldIsKept(f: Field, s: Slot, wireType: nat, bs: seq<byte>)
    requires ValidField(f) && ValidSlot(f, s) && DecodeField(f, s, wireType, bs).Parsed?
    ensures ValidSlot(f, DecodeField(f, s, wireType, bs).value)
    decreases |bs|, 2
  {
    match s
    case Calls(_) =>
    case One(v) => ValueIsValid(f.ltype, v, wireType, bs);
    case Opt(o) =>
      DefaultIsValidValue(f.ltype);
      ValueIsValid(f.ltype, if o.Some? then o.value else DefaultValue(f.ltype), wireType, bs);
    case Rep(vs) => RepeatedIsValid(f, vs, wireType, bs);
  }

  lemma {:induction false} RecordKeepsValid(fields: Fields, m: Slots, bs: seq<byte>)
    requires ValidFields(fields) && ValidSlots(fields, m) && DecodeRecord(fields, m, bs).Parsed?
    ensures ValidSlots(fields, DecodeRecord(fields, m, bs).value)
    decreases |bs|, 3
  {
    var word, rest := Read32(bs).value, Read32(bs).rest;
    var i := Find(fields, word / 8);
    if i < |fields| {
      FieldIsValid(fields, i);
      SlotIsValid(fields, m, i);
      FieldIsKept(fields[i], m[i], word % 8, rest);
      UpdateValid(fields, m, i, DecodeField(fields[i], m[i], word % 8, rest).value);
    }
  }

  /**
   * From any message within its capacities, every buffer that decodes leaves a message within its
   * capacities: array counts, byte and string lengths, integer ranges, at every depth.
   */
  lemma {:induction false} DecodeKeepsValid(fields: Fields, m: Slots, bs: seq<byte>)
    requires ValidFields(fields) && ValidSlots(fields, m) && DecodeFields(fields, m, bs).Some?
    ensures ValidSlots(fields, DecodeFields(fields, m, bs).value)
    decreases |bs|, 4
  {
    if bs == [] {
    } else {
      RecordKeepsValid(fields, m, bs);
      var r := DecodeRecord(fields, m, bs);
      DecodeKeepsValid(fields, r.value, r.rest);
    }
  }

  // Declared sizes

  lemma {:induction false} EvenValueObeys(l: LType, v: Value)
    requires EvenLType(l) && ValidValue(l, v)
    ensures ObeysValue(l, v)
  {
    match l
    case Message(fields) => EvenObeys(fields, v.slots);
    case _ =>
  }

  lemma {:induction false} EvenSlotObeys(f: Field, s: Slot)
    requires EvenField(f) && ValidSlot(f, s)
    ensures ObeysSlot(f, s)
  {
    match s
    case One(v) => EvenValueObeys(f.ltype, v);
    case Opt(o) =>
      if o.Some? {
        EvenValueObeys(f.ltype, o.value);
      }
    case Rep(vs) =>
      forall v | v in vs
        ensures ObeysValue(f.ltype, v)
      {
        EvenValueObeys(f.ltype, v);
      }
    case Calls(_) =>
  }

  /** Without odd sizes, what a struct can hold obeys the declared sizes. */
  lemma {:induction false} EvenObeys(fields: Fields, m: Slots)
    requires Even(fields) && ValidSlots(fields, m)
    ensures Obeys(fields, m)
  {
    if fields == [] {
    } else {
      EvenSlotObeys(fields[0], m[0]);
      EvenObeys(fields[1..], m[1..]);
    }
  }

  lemma {:induction false} OddField(f: Field)
    ensures !EvenField(f) <==>
            f.rule != Repeated(0) &&
            ((f.ltype.Bytes? && f.ltype.maxSize % 2 == 1) || (f.ltype.Message? && !Even(f.ltype.fields)))
  {
    match f.ltype
    case Message(fields) => assert EvenLType(f.ltype) == Even(fields);
    case _ =>
  }

  /** The first field with an odd size in it. */
  function OddAt(fields: Fields): (i: nat)
    requires !Even(fields)
    ensures i < |fields| && !EvenField(fields[i])
  {
    if !EvenField(fields[0]) then 0 else 1 + OddAt(fields[1..])
  }

  /** A record with a byte string in it that is one longer than its odd declared size. */
  function OverlongRecord(f: Field): seq<byte>
    requires !EvenField(f)
  {
    OddField(f);
    Tag(f.tag, WT_STRING) +
    Delimited(if f.ltype.Bytes? then ZeroBytes(f.ltype.maxSize + 1) else Overlong(f.ltype.fields))
  }

  function Overlong(fields: Fields): seq<byte>
    requires !Even(fields)
  {
    OverlongRecord(fields[OddAt(fields)])
  }

  /** A record that puts an item that is too long into a slot that was empty. */
  lemma {:induction false} OverlongField(f: Field, v: Value, body: seq<byte>) returns (s: Slot)
    requires !f.ltype.Callback? && !Packable(f.ltype) && f.rule != Repeated(0) && !ObeysValue(f.ltype, v)
    requires DecodeValue(f.ltype, DefaultValue(f.ltype), WT_STRING, body) == Parsed(v, [])
    ensures DecodeField(f, DefaultSlot(f), WT_STRING, body) == Parsed(s, []) && !ObeysSlot(f, s)
  {
    match f.rule
    case Singular => s := One(v);
    case Optional => s := Opt(Some(v));
    case Repeated(_) =>
      s := Rep([v]);
      assert [] + [v] == [v] && v in [v];
  }

  lemma {:induction false} OverlongRecordDecodes(f: Field) returns (s: Slot, body: seq<byte>)
    requires ValidField(f) && !EvenField(f) && |OverlongRecord(f)| < TWO32
    ensures OverlongRecord(f) == Tag(f.tag, WT_STRING) + body
    ensures DecodeField(f, DefaultSlot(f), WT_STRING, body) == Parsed(s, []) && !ObeysSlot(f, s)
  {
    OddField(f);
    var content := if f.ltype.Bytes? then ZeroBytes(f.ltype.maxSize + 1) else Overlong(f.ltype.fields);
    body := Delimited(content);
    DelimitedRoundTrip(content, []);
    assert body + [] == body && content + [] == content;
    if f.ltype.Message? {
      OverlongDecodes(f.ltype.fields);
    }
    s := OverlongField(f, DecodeValue(f.ltype, DefaultValue(f.ltype), WT_STRING, body).value, body);
  }

  /** The byte in the padding is accepted, at whatever depth. */
  lemma {:induction false} OverlongDecodes(fields: Fields)
    requires ValidFields(fields) && !Even(fields) && |Overlong(fields)| < TWO32
    ensures Decode(fields, Overlong(fields)).Some? && !Obeys(fields, Decode(fields, Overlong(fields)).value)
  {
    var k := OddAt(fields);
    FieldIsValid(fields, k);
    DefaultSlotAt(fields, k);
    var s, body := OverlongRecordDecodes(fields[k]);
    SingleRecord(fields, DefaultSlots(fields), k, WT_STRING, body, s);
    if Obeys(fields, DefaultSlots(fields)[k := s]) {
      ObeysAt(fields, DefaultSlots(fields)[k := s], k);
    }
  }

  /**
   * The declared sizes of bytes fields hold of whatever decodes if and only if none of them is odd: an odd one
   * is padded to an even capacity, and the decoder compares with that.
   */
  lemma {:induction false} DeclaredSizesIff(fields: Fields)
    requires ValidFields(fields) && (Even(fields) || |Overlong(fields)| < TWO32)
    ensures Even(fields) <==> forall bs :: Decode(fields, bs).Some? ==> Obeys(fields, Decode(fields, bs).value)
  {
    if Even(fields) {
      DefaultIsValid(fields);
      forall bs | Decode(fields, bs).Some?
        ensures Obeys(fields, Decode(fields, bs).value)
      {
        DecodeKeepsValid(fields, DefaultSlots(fields), bs);
        EvenObeys(fields, Decode(fields, bs).value);
      }
    } else {
      OverlongDecodes(fields);
    }
  }

  /** Re-encoding whatever was decoded, canonical or not, gives bytes that decode to the same message. */
  lemma {:induction false} ReencodeStable(fields: Fields, bs: seq<byte>)
    requires ValidFields(fields) && StaticFields(fields) && Decode(fields, bs).Some?
    requires |Encode(fields, Decode(fields, bs).value)| < TWO32
    ensures Decode(fields, Encode(fields, Decode(fields, bs).value)) == Decode(fields, bs)
  {
    DefaultIsValid(fields);
    DecodeKeepsValid(fields, DefaultSlots(fields), bs);
    MessageRoundTrip(fields, Decode(fields, bs).value);
  }
}
