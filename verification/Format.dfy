/** What the decoder does with given bytes and which bytes the encoder gives, stated without their own branches. */
module Format {
  import opened Arith
  import opened Varints
  import opened Schema
  import opened Wire
  import opened Split
  import opened RoundTrip

  // Unknown fields

  /** No field of the schema has this number. */
  predicate Unknown(fields: Fields, tag: nat) {
    1 <= tag < 0x2000_0000 && forall i :: 0 <= i < |fields| ==> fields[i].tag != tag
  }

  lemma {:induction false} UnknownStep(fields: Fields, m: Slots, bs: seq<byte>, word: nat, body: seq<byte>)
    requires |fields| == |m| && Read32(bs) == Parsed(word, body) && word / 8 != 0 && Find(fields, word / 8) == |fields|
    ensures
      var skipped := SkipField(word % 8, body);
      DecodeFields(fields, m, bs) == if skipped.Parsed? then DecodeFields(fields, m, skipped.rest) else None
  {}

  lemma {:induction false} UnknownRecord(fields: Fields, m: Slots, tag: nat, wireType: nat, body: seq<byte>)
    requires |fields| == |m| && Unknown(fields, tag) && wireType < 8
    ensures
      var skipped := SkipField(wireType, body);
      DecodeFields(fields, m, Tag(tag, wireType) + body) ==
      if skipped.Parsed? then DecodeFields(fields, m, skipped.rest) else None
  {
    TagWord(tag, wireType, body);
    assert Find(fields, tag) == |fields|;
    UnknownStep(fields, m, Tag(tag, wireType) + body, tag * 8 + wireType, body);
  }

  /** An unknown varint is passed over, however long it is. */
  lemma {:induction false} UnknownVarint(fields: Fields, m: Slots, tag: nat, s: seq<byte>, tail: seq<byte>)
    requires |fields| == |m| && Unknown(fields, tag) && IsVarint(s)
    ensures DecodeFields(fields, m, Tag(tag, 0) + (s + tail)) == DecodeFields(fields, m, tail)
  {
    UnknownRecord(fields, m, tag, 0, s + tail);
    assert (s + tail)[..|s|] == s && (s + tail)[|s|..] == tail;
    LengthUnique(s + tail, |s|);
  }

  /** So is every unknown number. */
  lemma {:induction false} UnknownNumber(fields: Fields, m: Slots, tag: nat, v: nat, tail: seq<byte>)
    requires |fields| == |m| && Unknown(fields, tag)
    ensures DecodeFields(fields, m, Tag(tag, 0) + (Varint(v) + tail)) == DecodeFields(fields, m, tail)
  {
    VarintIsVarint(v);
    UnknownVarint(fields, m, tag, Varint(v), tail);
  }

  lemma {:induction false} UnknownString(fields: Fields, m: Slots, tag: nat, s: seq<byte>, tail: seq<byte>)
    requires |fields| == |m| && Unknown(fields, tag) && |s| < TWO32
    ensures DecodeFields(fields, m, Tag(tag, 2) + (Delimited(s) + tail)) == DecodeFields(fields, m, tail)
  {
    UnknownRecord(fields, m, tag, 2, Delimited(s) + tail);
    DelimitedRoundTrip(s, tail);
  }

  /** Eight bytes behind wire type 1, four behind wire type 5; groups and anything else are refused. */
  lemma {:induction false} UnknownFixed(fields: Fields, m: Slots, tag: nat, wireType: nat, s: seq<byte>,
                                        tail: seq<byte>)
    requires |fields| == |m| && Unknown(fields, tag) && wireType < 8
    ensures (wireType == 1 && |s| == 8) || (wireType == 5 && |s| == 4) ==>
              DecodeFields(fields, m, Tag(tag, wireType) + (s + tail)) == DecodeFields(fields, m, tail)
    ensures wireType !in {0, 1, 2, 5} ==> DecodeFields(fields, m, Tag(tag, wireType) + (s + tail)) == None
  {
    UnknownRecord(fields, m, tag, wireType, s + tail);
    assert (s + tail)[|s|..] == tail;
  }

  // Defaults

  /** Nothing but zeros, at every depth. */
  predicate Zeroed(v: Value) {
    match v
    case IntV(i) => i == 0
    case BytesV(bytes) => forall b :: b in bytes ==> b == 0
    case MsgV(slots) => forall s :: s in slots ==> ZeroedSlot(s)
  }

  predicate ZeroedSlot(s: Slot) {
    match s
    case One(v) => Zeroed(v)
    case Opt(o) => o.None?
    case Rep(vs) => vs == []
    case Calls(calls) => calls == []
  }

  lemma {:induction false} DefaultZeroed(l: LType)
    ensures Zeroed(DefaultValue(l))
  {
    match l
    case Message(fields) => DefaultsZeroed(fields);
    case _ =>
  }

  lemma {:induction false} DefaultSlotZeroed(f: Field)
    ensures ZeroedSlot(DefaultSlot(f))
  {
    if !f.ltype.Callback? && f.rule.Singular? {
      DefaultZeroed(f.ltype);
    }
  }

  lemma {:induction false} DefaultsZeroed(fields: Fields)
    ensures forall s :: s in DefaultSlots(fields) ==> ZeroedSlot(s)
  {
    if fields == [] {
    } else {
      DefaultSlotZeroed(fields[0]);
      DefaultsZeroed(fields[1..]);
      assert DefaultSlots(fields) == [DefaultSlot(fields[0])] + DefaultSlots(fields[1..]);
    }
  }

  /** The empty buffer decodes to zeros. */
  lemma {:induction false} EmptyBufferIsZero(fields: Fields)
    ensures Decode(fields, []).Some? && forall s :: s in Decode(fields, []).value ==> ZeroedSlot(s)
  {
    DefaultsZeroed(fields);
  }

  // What is refused

  /** Field number zero is always an error. */
  lemma {:induction false} ZeroTagRefused(fields: Fields, m: Slots, wireType: nat, body: seq<byte>)
    requires |fields| == |m| && wireType < 8
    ensures DecodeFields(fields, m, Tag(0, wireType) + body) == None
  {
    Read32RoundTrip(wireType, body);
    assert Tag(0, wireType) == Varint(wireType);
  }

  /** A record that is cut short anywhere is refused. */
  lemma {:induction false} TruncatedRefused(fields: Fields, m: Slots, a: seq<byte>, k: nat)
    requires |fields| == |m| && 0 < k < |a|
    requires DecodeRecord(fields, m, a).Parsed? && DecodeRecord(fields, m, a).rest == []
    ensures DecodeFields(fields, m, a[..k]) == None
  {
    assert a == a[..k] + a[k..];
    if DecodeRecord(fields, m, a[..k]).Parsed? {
      DecodeRecordPrefix(fields, m, a[..k], a[k..]);
    }
  }

  /** The wire types that a field takes: its own, or 2 for a packed array. */
  predicate Takes(f: Field, wireType: nat) {
    match f.ltype
    case Fixed32 => wireType == 5 || (wireType == 2 && f.rule.Repeated?)
    case Fixed64 => wireType == 1 || (wireType == 2 && f.rule.Repeated?)
    case Bytes(_) => wireType == 2
    case String(_) => wireType == 2
    case FixedBytes(_) => wireType == 2
    case Message(_) => wireType == 2
    case Callback => wireType in {0, 1, 2, 5}
    case _ => wireType == 0 || (wireType == 2 && f.rule.Repeated?)
  }

  lemma {:induction false} WrongValue(l: LType, current: Value, wireType: nat, body: seq<byte>)
    requires !l.Callback? && wireType < 8 && !Takes(Field(1, Singular, l), wireType)
    ensures DecodeValue(l, current, wireType, body) == Malformed
  {}

  lemma {:induction false} WrongRecord(f: Field, s: Slot, wireType: nat, body: seq<byte>)
    requires ValidSlot(f, s) && wireType < 8 && !Takes(f, wireType)
    ensures DecodeField(f, s, wireType, body) == Malformed
  {
    match s
    case Calls(_) =>
    case One(v) => WrongValue(f.ltype, v, wireType, body);
    case Opt(o) => WrongValue(f.ltype, if o.Some? then o.value else DefaultValue(f.ltype), wireType, body);
    case Rep(_) => WrongValue(f.ltype, DefaultValue(f.ltype), wireType, body);
  }

  lemma {:induction false} WrongWireTypeRefused(fields: Fields, m: Slots, k: nat, wireType: nat, body: seq<byte>)
    requires ValidFields(fields) && ValidSlots(fields, m) && k < |fields| && wireType < 8
    requires !Takes(fields[k], wireType)
    ensures DecodeFields(fields, m, Tag(fields[k].tag, wireType) + body) == None
  {
    SlotIsValid(fields, m, k);
    TagRoundTrip(fields, m, k, wireType, body);
    WrongRecord(fields[k], m[k], wireType, body);
  }

  // Numbers

  lemma {:induction false} Ranges(size: nat)
    requires IntSize(size)
    ensures Range(size) == Pow(256, size)
  {
    Pow256Words();
  }

  /** Which numbers an integer item becomes, by arithmetic: unsigned fields keep the word, signed ones its residue. */
  predicate Reads(l: LType, w: u64, i: int)
    requires l.Int? || l.UInt? || l.SInt?
  {
    match l
    case UInt(size) => i == w && w < Pow(256, size)
    case SInt(size) => w == (if i < 0 then -2 * i - 1 else 2 * i) && -(Pow(256, size) as int) <= 2 * i < Pow(256, size)
    case Int(size) =>
      && (i - w) % (if size == 8 then TWO64 else TWO32) == 0
      && -(Pow(256, size) as int) <= 2 * i < Pow(256, size)
  }

  lemma {:induction false} ResidueUnique(i: int, j: int, w: int, n: int)
    requires n > 0 && (i - w) % n == 0 && (j - w) % n == 0 && -n <= 2 * i < n && -n <= 2 * j < n
    ensures i == j
  {
    var a, b := (i - w) / n, (j - w) / n;
    assert i - w == a * n && j - w == b * n;
    assert i - j == (a - b) * n;
    if a > b {
      MulLe(1, a - b, n);
    } else if a < b {
      MulLe(1, b - a, n);
    }
  }

  lemma {:induction false} LowWord(w: u64)
    ensures (Signed32(w % TWO32) - w) % TWO32 == 0 && (Signed64(w) - w) % TWO64 == 0
  {
    assert w == w / TWO32 * TWO32 + w % TWO32;
    assert Signed32(w % TWO32) - w == (-(w / TWO32) - if w % TWO32 < TWO31 then 0 else 1) * TWO32;
    DivModUnique(Signed32(w % TWO32) - w, TWO32, -(w / TWO32) - if w % TWO32 < TWO31 then 0 else 1, 0);
  }

  lemma {:induction false} SignedWordIff(w: u64, i: int, size: nat)
    requires IntSize(size)
    ensures FromWord(Int(size), w) == Some(i) <==> Reads(Int(size), w, i)
  {
    Ranges(size);
    LowWord(w);
    var n := if size == 8 then TWO64 else TWO32;
    if Reads(Int(size), w, i) {
      ResidueUnique(i, if size == 8 then Signed64(w) else Signed32(w % TWO32), w, n);
    }
  }

  lemma {:induction false} ZigZagWordIff(w: u64, i: int, size: nat)
    requires IntSize(size)
    ensures FromWord(SInt(size), w) == Some(i) <==> Reads(SInt(size), w, i)
  {
    Ranges(size);
    UnZigZagRoundTrip(w);
  }

  /** A varint is accepted as exactly the number that it stands for in its field, and refused when there is none. */
  lemma {:induction false} IntegerIff(l: LType, w: u64, i: int, tail: seq<byte>)
    requires (l.Int? || l.UInt? || l.SInt?) && ValidLType(l)
    ensures DecodeInt(l, 0, Varint(w) + tail) == Parsed(IntV(i), tail) <==> Reads(l, w, i)
  {
    Read64RoundTrip(w, tail);
    match l
    case Int(size) => SignedWordIff(w, i, size);
    case SInt(size) => ZigZagWordIff(w, i, size);
    case UInt(size) => Ranges(size);
  }

  lemma {:induction false} BoolIff(w: u32, tail: seq<byte>)
    ensures DecodeInt(Bool, 0, Varint(w) + tail) == Parsed(IntV(if w == 0 then 0 else 1), tail)
  {
    Read32RoundTrip(w, tail);
  }

  /** The encoder extends the sign to 64 bits, whatever the size of the field. */
  lemma {:induction false} WordIsResidue(l: LType, i: int)
    requires (l.Int? || l.UInt?) && ValidLType(l) && ValidValue(l, IntV(i))
    ensures Read64(EncodeValue(l, IntV(i))) == Parsed(i % TWO64, [])
    ensures i < 0 ==> |EncodeValue(l, IntV(i))| == 10
  {
    var w := Word(l, i);
    if i < 0 {
      DivModUnique(i, TWO64, -1, w);
      Pow128Words();
      VarintSize(w, 9);
      VarintAtMost10(w);
    } else {
      SmallMod(i, TWO64);
    }
    Read64RoundTrip(w, []);
    assert Varint(w) + [] == Varint(w);
  }

  /** Fixed-size numbers start with their lowest byte. */
  lemma {:induction false} LittleEndianAt(i: nat, n: nat, k: nat)
    requires k < n
    ensures |LittleEndian(i, n)| == n && Pow(256, k) > 0 && LittleEndian(i, n)[k] == i / Pow(256, k) % 256
  {
    PowPositive(256, k);
    if k == 0 {
    } else {
      PowPositive(256, k - 1);
      LittleEndianAt(i / 256, n - 1, k - 1);
      DivDiv(i, 256, Pow(256, k - 1));
    }
  }

  // Byte strings

  /** The bytes in front of the first NUL. */
  ghost predicate Terminated(s: seq<byte>, content: seq<byte>) {
    s <= content && 0 !in s && (s != content ==> content[|s|] == 0)
  }

  lemma {:induction false} CStringTerminates(content: seq<byte>)
    ensures Terminated(CString(content), content)
  {
    if content == [] || content[0] == 0 {
    } else {
      CStringTerminates(content[1..]);
    }
  }

  /** Which contents a byte string field takes, and what it then holds. */
  ghost predicate HoldsBytes(l: LType, content: seq<byte>, v: Value)
    requires l.Bytes? || l.String? || l.FixedBytes?
  {
    v.BytesV? &&
    match l
    case Bytes(maxSize) => |content| <= Padded(maxSize) && v.bytes == content
    case String(bufsize) => |content| < bufsize && Terminated(v.bytes, content)
    case FixedBytes(length) =>
      (|content| == length && v.bytes == content) || (content == [] && v.bytes == ZeroBytes(length))
  }

  lemma {:induction false} ByteStringIff(l: LType, content: seq<byte>, v: Value, tail: seq<byte>)
    requires (l.Bytes? || l.String? || l.FixedBytes?) && ValidLType(l) && |content| < TWO32
    ensures DecodeBytes(l, Delimited(content) + tail) == Parsed(v, tail) <==> HoldsBytes(l, content, v)
    ensures DecodeBytes(l, Delimited(content) + tail).Parsed? ==> DecodeBytes(l, Delimited(content) + tail).rest == tail
  {
    DelimitedRoundTrip(content, tail);
    CStringTerminates(content);
    if l.String? && v.BytesV? && Terminated(v.bytes, content) {
      TerminatedUnique(v.bytes, CString(content), content);
    }
  }

  lemma {:induction false} TerminatedUnique(a: seq<byte>, b: seq<byte>, content: seq<byte>)
    requires Terminated(a, content) && Terminated(b, content)
    ensures a == b
  {}

  // Arrays and callbacks

  /** Items of an array are also taken one by one, packable or not. */
  lemma {:induction false} UnpackedItem(fields: Fields, m: Slots, k: nat, v: Value)
    requires ValidFields(fields) && |fields| == |m| && k < |fields|
    requires fields[k].rule.Repeated? && m[k].Rep? && |m[k].vs| < fields[k].rule.maxCount
    requires StaticField(fields[k]) && ValidValue(fields[k].ltype, v) && |EncodeItem(fields[k], v)| < TWO32
    ensures DecodeFields(fields, m, EncodeItem(fields[k], v)) == Some(m[k := Rep(m[k].vs + [v])])
  {
    var f := fields[k];
    var body := EncodeValue(f.ltype, v);
    FieldIsValid(fields, k);
    ValueRoundTrip(f.ltype, v, []);
    assert body + [] == body;
    SingleRecord(fields, m, k, WireType(f.ltype), body, Rep(m[k].vs + [v]));
  }

  /** An array takes no more items than it has room for, one by one or packed. */
  lemma {:induction false} FullArrayRefuses(fields: Fields, m: Slots, k: nat, wireType: nat, body: seq<byte>)
    requires ValidFields(fields) && |fields| == |m| && k < |fields| && wireType < 8 && !fields[k].ltype.Callback?
    requires fields[k].rule.Repeated? && m[k].Rep? && |m[k].vs| >= fields[k].rule.maxCount
    requires wireType == 2 ==> !Number(fields[k].ltype)
    ensures DecodeFields(fields, m, Tag(fields[k].tag, wireType) + body) == None
  {
    TagRoundTrip(fields, m, k, wireType, body);
  }

  lemma {:induction false} PackedOverflow(l: LType, done: seq<Value>, vs: seq<Value>, maxCount: nat)
    requires ValidLType(l) && Number(l) && AllValid(l, vs) && |done| <= maxCount < |done| + |vs|
    ensures DecodePacked(l, done, maxCount, EncodePacked(l, vs)) == None
    decreases |vs|
  {
    FirstValid(l, vs);
    if |done| == maxCount {
      ScalarRoundTrip(l, vs[0], WT_PACKED, []);
    } else {
      PackedStep(l, done, vs[0], maxCount, EncodePacked(l, vs[1..]));
      PackedOverflow(l, done + [vs[0]], vs[1..], maxCount);
    }
  }

  /** The bytes of a number behind its tag. */
  ghost predicate RawNumber(wireType: nat, s: seq<byte>) {
    (wireType == 0 && IsVarint(s) && |s| <= 10) || (wireType == 1 && |s| == 8) || (wireType == 5 && |s| == 4)
  }

  /** A callback is given the content of a delimited record, in place, or the raw bytes of a number, copied. */
  lemma {:induction false} CallbackGets(fields: Fields, m: Slots, k: nat, wireType: nat, s: seq<byte>)
    requires ValidFields(fields) && |fields| == |m| && k < |fields| && fields[k].ltype.Callback? && m[k].Calls?
    requires wireType == 2 ==> |s| < TWO32
    ensures wireType == 2 ==>
              DecodeFields(fields, m, Tag(fields[k].tag, 2) + Delimited(s)) ==
              Some(m[k := Calls(m[k].calls + [Call(true, s)])])
    ensures RawNumber(wireType, s) ==>
              DecodeFields(fields, m, Tag(fields[k].tag, wireType) + s) ==
              Some(m[k := Calls(m[k].calls + [Call(false, s)])])
  {
    if wireType == 2 {
      DelimitedRoundTrip(s, []);
      assert Delimited(s) + [] == Delimited(s);
      SingleRecord(fields, m, k, 2, Delimited(s), Calls(m[k].calls + [Call(true, s)]));
    } else if RawNumber(wireType, s) {
      assert s[..|s|] == s && s[|s|..] == [];
      if wireType == 0 {
        LengthUnique(s, |s|);
      }
      SingleRecord(fields, m, k, wireType, s, Calls(m[k].calls + [Call(false, s)]));
    }
  }

  /** A varint that is too long for 64 bits is not given to a callback. */
  lemma {:induction false} CallbackRefuses(fields: Fields, m: Slots, k: nat, s: seq<byte>, tail: seq<byte>)
    requires ValidFields(fields) && |fields| == |m| && k < |fields| && fields[k].ltype.Callback? && m[k].Calls?
    requires IsVarint(s) && |s| > 10
    ensures DecodeFields(fields, m, Tag(fields[k].tag, 0) + (s + tail)) == None
  {
    assert (s + tail)[..|s|] == s;
    LengthUnique(s + tail, |s|);
    TagRoundTrip(fields, m, k, 0, s + tail);
  }

  // What the encoder leaves out

  /** The types whose default is left out of a message: all but fixed-length bytes, at every depth. */
  predicate Omittable(l: LType) {
    match l
    case FixedBytes(length) => length == 0
    case Message(fields) => AllOmittable(fields)
    case _ => true
  }

  predicate OmittableField(f: Field) {
    f.rule.Singular? ==> Omittable(f.ltype)
  }

  predicate AllOmittable(fields: Fields) {
    fields == [] || (OmittableField(fields[0]) && AllOmittable(fields[1..]))
  }

  lemma {:induction false} DefaultOmitted(l: LType)
    requires StaticLType(l)
    ensures Omitted(l, DefaultValue(l)) <==> Omittable(l)
  {
    match l
    case Message(fields) => DefaultsOmitted(fields);
    case _ =>
  }

  lemma {:induction false} DefaultSlotOmitted(f: Field)
    requires StaticField(f)
    ensures OmittedSlot(f, DefaultSlot(f)) <==> OmittableField(f)
  {
    if f.rule.Singular? {
      DefaultOmitted(f.ltype);
    }
  }

  lemma {:induction false} DefaultsOmitted(fields: Fields)
    requires StaticFields(fields)
    ensures AllOmitted(fields, DefaultSlots(fields)) <==> AllOmittable(fields)
  {
    if fields == [] {
    } else {
      DefaultSlotOmitted(fields[0]);
      DefaultsOmitted(fields[1..]);
      assert DefaultSlots(fields)[1..] == DefaultSlots(fields[1..]);
    }
  }

  lemma {:induction false} OmittedIff(f: Field, s: Slot)
    requires ValidField(f) && StaticField(f) && ValidSlot(f, s)
    ensures OmittedSlot(f, s) <==> s == DefaultSlot(f) && OmittableField(f)
  {
    if OmittedSlot(f, s) {
      OmittedSlotIsDefault(f, s);
    }
    DefaultSlotOmitted(f);
  }

  /** A field takes no bytes exactly when it holds its default and is not of a fixed length. */
  lemma {:induction false} EmptyFieldIff(f: Field, s: Slot)
    requires ValidField(f) && StaticField(f) && ValidSlot(f, s)
    ensures EncodeField(f, s) == [] <==> s == DefaultSlot(f) && OmittableField(f)
  {
    OmittedIff(f, s);
    if s.Rep? && s.vs != [] && !Packable(f.ltype) {
      assert EncodeItems(f, s.vs) == EncodeItem(f, s.vs[0]) + EncodeItems(f, s.vs[1..]);
    }
  }

  /** A message takes no bytes exactly when it is the default one and has no field of a fixed length. */
  lemma {:induction false} EmptyMessageIff(fields: Fields, m: Slots)
    requires ValidFields(fields) && StaticFields(fields) && ValidSlots(fields, m)
    ensures Encode(fields, m) == [] <==> m == DefaultSlots(fields) && AllOmittable(fields)
  {
    if fields == [] {
    } else {
      EmptyFieldIff(fields[0], m[0]);
      EmptyMessageIff(fields[1..], m[1..]);
      assert DefaultSlots(fields) == [DefaultSlot(fields[0])] + DefaultSlots(fields[1..]);
      assert m == [m[0]] + m[1..];
    }
  }

  // Which records the encoder emits, in which order

  /** The field numbers of the records in a buffer. */
  function TagsOf(bs: seq<byte>): Option<seq<nat>>
    decreases |bs|
  {
    if bs == [] then Some([])
    else
      match Read32(bs)
      case Malformed => None
      case Parsed(word, body) =>
        match SkipField(word % 8, body)
        case Malformed => None
        case Parsed(_, rest) => if TagsOf(rest).Some? then Some([word / 8] + TagsOf(rest).value) else None
  }

  lemma {:induction false} TagStep(bs: seq<byte>, word: nat, body: seq<byte>, rest: seq<byte>, tags: seq<nat>)
    requires Read32(bs) == Parsed(word, body) && SkipField(word % 8, body) == Parsed((), rest)
    requires TagsOf(rest) == Some(tags)
    ensures TagsOf(bs) == Some([word / 8] + tags)
  {}

  lemma {:induction false} RecordTag(tag: nat, wireType: nat, body: seq<byte>, tail: seq<byte>, tags: seq<nat>)
    requires 1 <= tag < 0x2000_0000 && wireType < 8
    requires SkipField(wireType, body + tail) == Parsed((), tail) && TagsOf(tail) == Some(tags)
    ensures TagsOf(Tag(tag, wireType) + body + tail) == Some([tag] + tags)
  {
    var lead := Tag(tag, wireType);
    TagWord(tag, wireType, body + tail);
    TagStep(lead + (body + tail), tag * 8 + wireType, body + tail, tail, tags);
    Regroup(lead, body, tail);
  }

  lemma {:induction false} SkipsValue(l: LType, v: Value, tail: seq<byte>)
    requires StaticLType(l) && ValidValue(l, v) && |EncodeValue(l, v)| < TWO32
    ensures SkipField(WireType(l), EncodeValue(l, v) + tail) == Parsed((), tail)
  {
    var s := EncodeValue(l, v);
    assert (s + tail)[..|s|] == s && (s + tail)[|s|..] == tail;
    if l.Fixed32? || l.Fixed64? {
    } else if Packable(l) {
      VarintIsVarint(Word(l, v.i));
      LengthUnique(s + tail, |s|);
    } else if l.Message? {
      DelimitedRoundTrip(Encode(l.fields, v.slots), tail);
    } else {
      DelimitedRoundTrip(v.bytes, tail);
    }
  }

  lemma {:induction false} ItemTag(f: Field, v: Value, tail: seq<byte>, tags: seq<nat>)
    requires ValidField(f) && StaticField(f) && ValidValue(f.ltype, v) && |EncodeItem(f, v)| < TWO32
    requires TagsOf(tail) == Some(tags)
    ensures TagsOf(EncodeItem(f, v) + tail) == Some([f.tag] + tags)
  {
    SkipsValue(f.ltype, v, tail);
    RecordTag(f.tag, WireType(f.ltype), EncodeValue(f.ltype, v), tail, tags);
  }

  function Copies(tag: nat, n: nat): seq<nat> {
    if n == 0 then [] else [tag] + Copies(tag, n - 1)
  }

  lemma {:induction false} Regroup<T>(a: seq<T>, b: seq<T>, c: seq<T>)
    ensures a + b + c == a + (b + c)
  {}

  lemma {:induction false} TagsRegrouped(a: seq<byte>, b: seq<byte>, c: seq<byte>, x: seq<nat>, y: seq<nat>,
                                         z: seq<nat>)
    requires TagsOf(a + (b + c)) == Some(x + (y + z))
    ensures TagsOf(a + b + c) == Some(x + y + z)
  {
    Regroup(a, b, c);
    Regroup(x, y, z);
  }

  lemma {:induction false} ItemTags(f: Field, vs: seq<Value>, tail: seq<byte>, tags: seq<nat>)
    requires ValidField(f) && StaticField(f) && AllValid(f.ltype, vs) && |EncodeItems(f, vs)| < TWO32
    requires TagsOf(tail) == Some(tags)
    ensures TagsOf(EncodeItems(f, vs) + tail) == Some(Copies(f.tag, |vs|) + tags)
  {
    if vs == [] {
      assert [] + tail == tail && Copies(f.tag, 0) + tags == tags;
    } else {
      FirstValid(f.ltype, vs);
      ItemTags(f, vs[1..], tail, tags);
      ItemTag(f, vs[0], EncodeItems(f, vs[1..]) + tail, Copies(f.tag, |vs| - 1) + tags);
      TagsRegrouped(EncodeItem(f, vs[0]), EncodeItems(f, vs[1..]), tail, [f.tag], Copies(f.tag, |vs| - 1), tags);
    }
  }

  predicate Number(l: LType) {
    !l.Bytes? && !l.String? && !l.FixedBytes? && !l.Message? && !l.Callback?
  }

  /** The records of one field: none for a default, one for a packed array, and one for each item otherwise. */
  function FieldTags(f: Field, s: Slot): seq<nat> {
    match s
    case One(v) => if v == DefaultValue(f.ltype) && Omittable(f.ltype) then [] else [f.tag]
    case Opt(o) => if o.None? then [] else [f.tag]
    case Rep(vs) => if Number(f.ltype) && vs != [] then [f.tag] else Copies(f.tag, |vs|)
    case Calls(_) => []
  }

  function MessageTags(fields: Fields, m: Slots): seq<nat>
    requires |fields| == |m|
  {
    if fields == [] then [] else FieldTags(fields[0], m[0]) + MessageTags(fields[1..], m[1..])
  }

  lemma {:induction false} FieldRecords(f: Field, s: Slot, tail: seq<byte>, tags: seq<nat>)
    requires ValidField(f) && StaticField(f) && ValidSlot(f, s) && |EncodeField(f, s)| < TWO32
    requires TagsOf(tail) == Some(tags)
    ensures TagsOf(EncodeField(f, s) + tail) == Some(FieldTags(f, s) + tags)
  {
    OmittedIff(f, s);
    if EncodeField(f, s) == [] {
      EmptyFieldIff(f, s);
      assert FieldTags(f, s) == [];
      assert [] + tail == tail && [] + tags == tags;
    } else {
      match s
      case One(v) => ItemTag(f, v, tail, tags);
      case Opt(o) => ItemTag(f, o.value, tail, tags);
      case Rep(vs) =>
        if Packable(f.ltype) {
          var content := EncodePacked(f.ltype, vs);
          DelimitedRoundTrip(content, tail);
          RecordTag(f.tag, WT_STRING, Delimited(content), tail, tags);
        } else {
          ItemTags(f, vs, tail, tags);
        }
    }
  }

  /** The encoding of a message is a run of records in the order of its fields, exactly those that it needs. */
  lemma {:induction false} MessageRecords(fields: Fields, m: Slots)
    requires ValidFields(fields) && StaticFields(fields) && ValidSlots(fields, m) && |Encode(fields, m)| < TWO32
    ensures TagsOf(Encode(fields, m)) == Some(MessageTags(fields, m))
  {
    if fields == [] {
    } else {
      MessageRecords(fields[1..], m[1..]);
      FieldRecords(fields[0], m[0], Encode(fields[1..], m[1..]), MessageTags(fields[1..], m[1..]));
    }
  }
}
