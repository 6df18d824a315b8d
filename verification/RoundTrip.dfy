/** Decoding what the encoder emits gives the message back. */
module RoundTrip {
  import opened Arith
  import opened Varints
  import opened Schema
  import opened Wire
  import opened Split

  // Items

  lemma {:induction false} WordFits(l: LType, i: int)
    requires l.Bool? || l.Int? || l.UInt? || l.SInt?
    requires ValidLType(l) && ValidValue(l, IntV(i))
    ensures 0 <= Word(l, i) < TWO64
    ensures l.Bool? ==> Word(l, i) == i
    ensures !l.Bool? ==> FromWord(l, Word(l, i)) == Some(i)
  {
    match l
    case SInt(size) => ZigZagRoundTrip(i);
    case Int(size) =>
      if size != 8 {
        NarrowInt(i);
      }
    case _ =>
  }

  lemma {:induction false} NarrowInt(i: int)
    requires -TWO31 <= i < TWO31
    ensures Signed32((if i < 0 then i + TWO64 else i) % TWO32) == i
  {
    if i < 0 {
      DivModUnique(i + TWO64, TWO32, TWO32 - 1, i + TWO32);
    } else {
      SmallMod(i, TWO32);
    }
  }

  lemma {:induction false} IntRoundTrip(l: LType, i: int, wireType: nat, tail: seq<byte>)
    requires l.Bool? || l.Int? || l.UInt? || l.SInt?
    requires ValidLType(l) && ValidValue(l, IntV(i)) && (wireType == WT_VARINT || wireType == WT_PACKED)
    ensures DecodeInt(l, wireType, Varint(Word(l, i)) + tail) == Parsed(IntV(i), tail)
  {
    WordFits(l, i);
    if l.Bool? {
      Read32RoundTrip(i, tail);
    } else {
      Read64RoundTrip(Word(l, i), tail);
    }
  }

  lemma {:induction false} FixedRoundTrip(i: int, n: nat, expected: nat, wireType: nat, tail: seq<byte>)
    requires (n == 4 && 0 <= i < TWO32) || (n == 8 && 0 <= i < TWO64)
    requires wireType == expected || wireType == WT_PACKED
    ensures DecodeFixed(n, expected, wireType, LittleEndian(i, n) + tail) == Parsed(IntV(i), tail)
  {
    Pow256Words();
    LittleEndianRoundTrip(i, n);
    assert (LittleEndian(i, n) + tail)[..n] == LittleEndian(i, n) && (LittleEndian(i, n) + tail)[n..] == tail;
  }

  lemma {:induction false} DelimitedRoundTrip(s: seq<byte>, tail: seq<byte>)
    requires |s| < TWO32
    ensures Read32(Delimited(s) + tail) == Parsed(|s|, s + tail)
    ensures TakeDelimited(Delimited(s) + tail) == Parsed(s, tail)
    ensures (s + tail)[..|s|] == s && (s + tail)[|s|..] == tail
  {
    assert Delimited(s) + tail == Varint(|s|) + (s + tail);
    Read32RoundTrip(|s|, s + tail);
  }

  lemma {:induction false} CStringOfClean(s: seq<byte>)
    requires 0 !in s
    ensures CString(s) == s
  {
    if s == [] {
    } else {
      assert forall b :: b in s[1..] ==> b in s;
      CStringOfClean(s[1..]);
    }
  }

  lemma {:induction false} BytesRoundTrip(l: LType, bytes: seq<byte>, tail: seq<byte>)
    requires l.Bytes? || l.String? || l.FixedBytes?
    requires ValidLType(l) && ValidValue(l, BytesV(bytes))
    ensures DecodeBytes(l, Delimited(bytes) + tail) == Parsed(BytesV(bytes), tail)
  {
    DelimitedRoundTrip(bytes, tail);
    if l.String? {
      CStringOfClean(bytes);
    }
  }

  /** A scalar behind its tag, or inside a packed array. */
  lemma {:induction false} ScalarRoundTrip(l: LType, v: Value, wireType: nat, tail: seq<byte>)
    requires ValidLType(l) && Packable(l) && ValidValue(l, v)
    requires wireType == WireType(l) || wireType == WT_PACKED
    ensures DecodeValue(l, DefaultValue(l), wireType, EncodeValue(l, v) + tail) == Parsed(v, tail)
    ensures EncodeValue(l, v) != []
  {
    if l.Fixed32? {
      FixedRoundTrip(v.i, 4, WT_32BIT, wireType, tail);
    } else if l.Fixed64? {
      FixedRoundTrip(v.i, 8, WT_64BIT, wireType, tail);
    } else {
      IntRoundTrip(l, v.i, wireType, tail);
    }
  }

  /** Any item behind its tag. */
  lemma {:induction false} ValueRoundTrip(l: LType, v: Value, tail: seq<byte>)
    requires ValidLType(l) && StaticLType(l) && ValidValue(l, v) && |EncodeValue(l, v)| < TWO32
    ensures DecodeValue(l, DefaultValue(l), WireType(l), EncodeValue(l, v) + tail) == Parsed(v, tail)
    decreases l, 0
  {
    if Packable(l) {
      ScalarRoundTrip(l, v, WireType(l), tail);
    } else if l.Message? {
      DelimitedRoundTrip(Encode(l.fields, v.slots), tail);
      MessageRoundTrip(l.fields, v.slots);
    } else {
      BytesRoundTrip(l, v.bytes, tail);
    }
  }

  // Omitted fields

  lemma {:induction false} OmittedIsDefault(l: LType, v: Value)
    requires ValidLType(l) && StaticLType(l) && ValidValue(l, v) && Omitted(l, v)
    ensures v == DefaultValue(l)
    decreases l, 0
  {
    match l
    case Message(fields) => AllOmittedIsDefault(fields, v.slots);
    case _ =>
  }

  lemma {:induction false} OmittedSlotIsDefault(f: Field, s: Slot)
    requires ValidField(f) && StaticField(f) && ValidSlot(f, s) && OmittedSlot(f, s)
    ensures s == DefaultSlot(f)
    decreases f, 0
  {
    if s.One? {
      OmittedIsDefault(f.ltype, s.v);
    }
  }

  lemma {:induction false} AllOmittedIsDefault(fields: Fields, m: Slots)
    requires ValidFields(fields) && StaticFields(fields) && ValidSlots(fields, m) && AllOmitted(fields, m)
    ensures m == DefaultSlots(fields)
    decreases fields, 1
  {
    if fields == [] {
    } else {
      OmittedSlotIsDefault(fields[0], m[0]);
      AllOmittedIsDefault(fields[1..], m[1..]);
      assert m == [m[0]] + m[1..];
    }
  }

  // Records

  lemma {:induction false} FindIndex(fields: Fields, k: nat)
    requires ValidFields(fields) && k < |fields|
    ensures Find(fields, fields[k].tag) == k
  {
    var i := Find(fields, fields[k].tag);
    if i < k {
      FieldIsValid(fields, i);
    }
  }

  lemma {:induction false} TagWord(tag: nat, wireType: nat, body: seq<byte>)
    requires 1 <= tag < 0x2000_0000 && wireType < 8
    ensures Read32(Tag(tag, wireType) + body) == Parsed(tag * 8 + wireType, body)
    ensures (tag * 8 + wireType) / 8 == tag && (tag * 8 + wireType) % 8 == wireType
  {
    Read32RoundTrip(tag * 8 + wireType, body);
  }

  /** A tag leads to its field. */
  lemma {:induction false} TagRoundTrip(fields: Fields, m: Slots, k: nat, wireType: nat, body: seq<byte>)
    requires ValidFields(fields) && |fields| == |m| && k < |fields| && wireType < 8
    ensures DecodeRecord(fields, m, Tag(fields[k].tag, wireType) + body) ==
            Placed(m, k, DecodeField(fields[k], m[k], wireType, body))
  {
    FieldIsValid(fields, k);
    TagWord(fields[k].tag, wireType, body);
    FindIndex(fields, k);
  }

  lemma {:induction false} Compose(fields: Fields, m: Slots, a: seq<byte>, m1: Slots, b: seq<byte>, m2: Slots)
    requires |fields| == |m| == |m1| && DecodeFields(fields, m, a) == Some(m1) &&
             DecodeFields(fields, m1, b) == Some(m2)
    ensures DecodeFields(fields, m, a + b) == Some(m2)
  {
    DecodeSplit(fields, m, a, b);
  }

  /** A buffer that holds one record. */
  lemma {:induction false} SingleRecord(fields: Fields, m: Slots, k: nat, wireType: nat, body: seq<byte>, s: Slot)
    requires ValidFields(fields) && |fields| == |m| && k < |fields| && wireType < 8
    requires DecodeField(fields[k], m[k], wireType, body) == Parsed(s, [])
    ensures DecodeFields(fields, m, Tag(fields[k].tag, wireType) + body) == Some(m[k := s])
  {
    TagRoundTrip(fields, m, k, wireType, body);
    assert DecodeFields(fields, m[k := s], []) == Some(m[k := s]);
  }

  /** A record of one item, for a slot that is empty or has room. */
  lemma {:induction false} ItemField(f: Field, s: Slot, v: Value, wireType: nat, body: seq<byte>)
    requires DecodeValue(f.ltype, DefaultValue(f.ltype), wireType, body) == Parsed(v, [])
    ensures s == One(DefaultValue(f.ltype)) ==> DecodeField(f, s, wireType, body) == Parsed(One(v), [])
    ensures s == Opt(None) ==> DecodeField(f, s, wireType, body) == Parsed(Opt(Some(v)), [])
    ensures s.Rep? && f.rule.Repeated? && !Packable(f.ltype) && |s.vs| < f.rule.maxCount ==>
              DecodeField(f, s, wireType, body) == Parsed(Rep(s.vs + [v]), [])
  {}

  lemma {:induction false} ItemRoundTrip(f: Field, fields: Fields, m: Slots, k: nat, v: Value)
    requires ValidFields(fields) && |fields| == |m| && k < |fields| && f == fields[k]
    requires ValidField(f) && StaticField(f) && ValidValue(f.ltype, v) && |EncodeItem(f, v)| < TWO32
    ensures m[k] == One(DefaultValue(f.ltype)) ==> DecodeFields(fields, m, EncodeItem(f, v)) == Some(m[k := One(v)])
    ensures m[k] == Opt(None) ==> DecodeFields(fields, m, EncodeItem(f, v)) == Some(m[k := Opt(Some(v))])
    ensures m[k].Rep? && f.rule.Repeated? && !Packable(f.ltype) && |m[k].vs| < f.rule.maxCount ==>
              DecodeFields(fields, m, EncodeItem(f, v)) == Some(m[k := Rep(m[k].vs + [v])])
    decreases f, 0
  {
    var body := EncodeValue(f.ltype, v);
    ValueRoundTrip(f.ltype, v, []);
    assert body + [] == body;
    ItemField(f, m[k], v, WireType(f.ltype), body);
    if m[k] == One(DefaultValue(f.ltype)) {
      SingleRecord(fields, m, k, WireType(f.ltype), body, One(v));
    } else if m[k] == Opt(None) {
      SingleRecord(fields, m, k, WireType(f.ltype), body, Opt(Some(v)));
    } else if m[k].Rep? && f.rule.Repeated? && !Packable(f.ltype) && |m[k].vs| < f.rule.maxCount {
      SingleRecord(fields, m, k, WireType(f.ltype), body, Rep(m[k].vs + [v]));
    }
  }

  // Arrays

  lemma {:induction false} UpdateTwice(m: Slots, k: nat, a: Slot, b: Slot)
    requires k < |m|
    ensures m[k := a][k := b] == m[k := b] && (m[k] == b ==> m[k := b] == m)
  {}

  lemma {:induction false} AppendFirst(done: seq<Value>, vs: seq<Value>)
    ensures vs != [] ==> done + [vs[0]] + vs[1..] == done + vs
    ensures vs == [] ==> done + vs == done
  {}

  ghost predicate AllValid(l: LType, vs: seq<Value>) {
    forall v :: v in vs ==> ValidValue(l, v)
  }

  lemma {:induction false} FirstValid(l: LType, vs: seq<Value>)
    requires AllValid(l, vs) && vs != []
    ensures ValidValue(l, vs[0]) && AllValid(l, vs[1..])
  {
    assert forall v :: v in vs[1..] ==> v in vs;
  }

  lemma {:induction false} ItemsRoundTrip(f: Field, fields: Fields, m: Slots, k: nat, done: seq<Value>, vs: seq<Value>)
    requires ValidFields(fields) && |fields| == |m| && k < |fields| && f == fields[k]
    requires ValidField(f) && StaticField(f) && !Packable(f.ltype) && f.rule.Repeated? && m[k] == Rep(done)
    requires |done| + |vs| <= f.rule.maxCount && AllValid(f.ltype, vs)
    requires |EncodeItems(f, vs)| < TWO32
    ensures DecodeFields(fields, m, EncodeItems(f, vs)) == Some(m[k := Rep(done + vs)])
    decreases f, 1, |vs|
  {
    AppendFirst(done, vs);
    if vs == [] {
      UpdateTwice(m, k, Rep(done), Rep(done));
    } else {
      var m' := m[k := Rep(done + [vs[0]])];
      FirstValid(f.ltype, vs);
      ItemRoundTrip(f, fields, m, k, vs[0]);
      ItemsRoundTrip(f, fields, m', k, done + [vs[0]], vs[1..]);
      UpdateTwice(m, k, Rep(done + [vs[0]]), Rep(done + vs));
      Compose(fields, m, EncodeItem(f, vs[0]), m', EncodeItems(f, vs[1..]), m[k := Rep(done + vs)]);
    }
  }

  lemma {:induction false} PackedStep(l: LType, done: seq<Value>, v: Value, maxCount: nat, tail: seq<byte>)
    requires ValidLType(l) && Packable(l) && ValidValue(l, v) && |done| < maxCount
    ensures DecodePacked(l, done, maxCount, EncodeValue(l, v) + tail) == DecodePacked(l, done + [v], maxCount, tail)
  {
    ScalarRoundTrip(l, v, WT_PACKED, tail);
  }

  lemma {:induction false} PackedRoundTrip(l: LType, done: seq<Value>, vs: seq<Value>, maxCount: nat)
    requires ValidLType(l) && Packable(l) && |done| + |vs| <= maxCount
    requires AllValid(l, vs)
    ensures DecodePacked(l, done, maxCount, EncodePacked(l, vs)) == Some(done + vs)
    decreases |vs|
  {
    AppendFirst(done, vs);
    if vs == [] {
    } else {
      FirstValid(l, vs);
      PackedStep(l, done, vs[0], maxCount, EncodePacked(l, vs[1..]));
      PackedRoundTrip(l, done + [vs[0]], vs[1..], maxCount);
    }
  }

  lemma {:induction false} PackedFieldRoundTrip(f: Field, fields: Fields, m: Slots, k: nat, vs: seq<Value>)
    requires ValidFields(fields) && |fields| == |m| && k < |fields| && f == fields[k]
    requires ValidField(f) && Packable(f.ltype) && f.rule.Repeated? && m[k] == Rep([])
    requires |vs| <= f.rule.maxCount && forall v :: v in vs ==> ValidValue(f.ltype, v)
    requires |Delimited(EncodePacked(f.ltype, vs))| < TWO32
    ensures DecodeFields(fields, m, Tag(f.tag, WT_STRING) + Delimited(EncodePacked(f.ltype, vs))) ==
            Some(m[k := Rep(vs)])
  {
    var content := EncodePacked(f.ltype, vs);
    PackedRoundTrip(f.ltype, [], vs, f.rule.maxCount);
    assert [] + vs == vs;
    DelimitedRoundTrip(content, []);
    assert Delimited(content) + [] == Delimited(content);
    SingleRecord(fields, m, k, WT_STRING, Delimited(content), Rep(vs));
  }

  // Messages

  lemma {:induction false} FieldRoundTrip(f: Field, fields: Fields, m: Slots, k: nat, s: Slot)
    requires ValidFields(fields) && |fields| == |m| && k < |fields| && f == fields[k] && m[k] == DefaultSlot(f)
    requires ValidField(f) && StaticField(f) && ValidSlot(f, s) && |EncodeField(f, s)| < TWO32
    ensures DecodeFields(fields, m, EncodeField(f, s)) == Some(m[k := s])
    decreases f, 2
  {
    if EncodeField(f, s) == [] && OmittedSlot(f, s) {
      OmittedSlotIsDefault(f, s);
      assert m[k := s] == m;
    } else {
      match s
      case One(v) => ItemRoundTrip(f, fields, m, k, v);
      case Opt(o) => ItemRoundTrip(f, fields, m, k, o.value);
      case Rep(vs) =>
        if Packable(f.ltype) {
          PackedFieldRoundTrip(f, fields, m, k, vs);
        } else {
          ItemsRoundTrip(f, fields, m, k, [], vs);
          assert [] + vs == vs;
        }
    }
  }

  /** The message after its first k fields have been decoded. */
  ghost function Partial(fields: Fields, m: Slots, k: nat): (p: Slots)
    requires |fields| == |m| && k <= |fields|
    ensures |p| == |fields|
  {
    m[..k] + DefaultSlots(fields)[k..]
  }

  lemma {:induction false} PartialStep(fields: Fields, m: Slots, k: nat)
    requires |fields| == |m| && k <= |fields|
    ensures k == |fields| ==> Partial(fields, m, k) == m
    ensures k == 0 ==> Partial(fields, m, k) == DefaultSlots(fields)
    ensures k < |fields| ==>
              Partial(fields, m, k)[k] == DefaultSlot(fields[k]) &&
              Partial(fields, m, k)[k := m[k]] == Partial(fields, m, k + 1)
  {
    SpliceStep(m, DefaultSlots(fields), k);
    if k < |fields| {
      DefaultSlotAt(fields, k);
    }
  }

  lemma {:induction false} SpliceStep<T>(m: seq<T>, d: seq<T>, k: nat)
    requires |d| == |m| && k <= |m|
    ensures k == |m| ==> m[..k] + d[k..] == m
    ensures k == 0 ==> m[..k] + d[k..] == d
    ensures k < |m| ==> (m[..k] + d[k..])[k] == d[k] && (m[..k] + d[k..])[k := m[k]] == m[..k + 1] + d[k + 1..]
  {}

  lemma {:induction false} EncodeFrom(fields: Fields, m: Slots, k: nat)
    requires ValidFields(fields) && StaticFields(fields) && ValidSlots(fields, m) && k <= |fields|
    requires |Encode(fields[k..], m[k..])| < TWO32
    ensures DecodeFields(fields, Partial(fields, m, k), Encode(fields[k..], m[k..])) == Some(m)
    decreases fields, 3, |fields| - k
  {
    PartialStep(fields, m, k);
    if k == |fields| {
      assert fields[k..] == [];
    } else {
      FieldIsValid(fields, k);
      FieldIsStatic(fields, k);
      SlotIsValid(fields, m, k);
      TailsOf(fields, m, k);
      FieldRoundTrip(fields[k], fields, Partial(fields, m, k), k, m[k]);
      EncodeFrom(fields, m, k + 1);
      Compose(fields, Partial(fields, m, k), EncodeField(fields[k], m[k]),
              Partial(fields, m, k + 1), Encode(fields[k + 1..], m[k + 1..]), m);
    }
  }

  lemma {:induction false} TailsOf(fields: Fields, m: Slots, k: nat)
    requires |fields| == |m| && k < |fields|
    ensures Encode(fields[k..], m[k..]) == EncodeField(fields[k], m[k]) + Encode(fields[k + 1..], m[k + 1..])
  {
    assert fields[k..][1..] == fields[k + 1..] && m[k..][1..] == m[k + 1..];
  }

  /**
   * For every schema of static fields, however nested, and every message it can hold whose
   * encoding has a 32-bit size: decoding the encoding consumes it all and returns the message.
   */
  lemma {:induction false} MessageRoundTrip(fields: Fields, m: Slots)
    requires ValidFields(fields) && StaticFields(fields) && ValidSlots(fields, m)
    requires |Encode(fields, m)| < TWO32
    ensures Decode(fields, Encode(fields, m)) == Some(m)
    decreases fields, 4
  {
    PartialStep(fields, m, 0);
    assert fields[0..] == fields && m[0..] == m;
    EncodeFrom(fields, m, 0);
  }
}
