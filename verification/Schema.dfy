/** Message descriptors of nanopb and the values they describe. */
module Schema {
  import opened Arith

  const SIZE_MAX: nat := 0xFFFF

  /** The type of one item of a field; sizes and capacities are in bytes. */
  datatype LType =
    | Bool
    | Int(size: nat)
    | UInt(size: nat)
    | SInt(size: nat)
    | Fixed32
    | Fixed64
    | Bytes(maxSize: nat)
    | String(bufsize: nat)
    | FixedBytes(length: nat)
    | Message(fields: seq<Field>)
    | Callback

  /** SINGULAR has no presence flag, OPTIONAL has one, REPEATED has a count and an array bound. */
  datatype Rule = Singular | Optional | Repeated(maxCount: nat)

  datatype Field = Field(tag: nat, rule: Rule, ltype: LType)

  /** One use of a decode callback: the bytes it saw, and whether they lie in the decoded buffer. */
  datatype Call = Call(inBuffer: bool, payload: seq<byte>)

  datatype Option<T> = None | Some(value: T)

  datatype Value = IntV(i: int) | BytesV(bytes: seq<byte>) | MsgV(slots: seq<Slot>)

  datatype Slot = One(v: Value) | Opt(o: Option<Value>) | Rep(vs: seq<Value>) | Calls(calls: seq<Call>)

  type Fields = seq<Field>
  type Slots = seq<Slot>

  predicate Packable(l: LType) {
    l.Bool? || l.Int? || l.UInt? || l.SInt? || l.Fixed32? || l.Fixed64?
  }

  /** The bytes that a PB_BYTES_ARRAY_T has room for: its size is even, so an odd declared size is padded by one. */
  function Padded(maxSize: nat): nat {
    maxSize + maxSize % 2
  }

  // Well-formed descriptors

  predicate IntSize(size: nat) {
    size == 1 || size == 2 || size == 4 || size == 8
  }

  predicate ValidLType(l: LType) {
    match l
    case Int(size) => IntSize(size)
    case UInt(size) => IntSize(size)
    case SInt(size) => IntSize(size)
    case Bytes(maxSize) => 2 + Padded(maxSize) <= SIZE_MAX
    case String(bufsize) => 1 <= bufsize <= SIZE_MAX
    case FixedBytes(length) => length <= SIZE_MAX
    case Message(fields) => ValidFields(fields)
    case _ => true
  }

  predicate ValidField(f: Field) {
    1 <= f.tag < 0x2000_0000 && ValidLType(f.ltype)
  }

  /** Field numbers as the wire format allows them, rising, and valid types. */
  predicate ValidFields(fields: Fields) {
    fields != [] ==>
      && ValidField(fields[0])
      && ValidFields(fields[1..])
      && (|fields| > 1 ==> fields[0].tag < fields[1].tag)
  }

  lemma {:induction false} FieldIsValid(fields: Fields, i: nat)
    requires ValidFields(fields) && i < |fields|
    ensures ValidField(fields[i])
    ensures forall j :: i < j < |fields| ==> fields[i].tag < fields[j].tag
  {
    if i > 0 {
      FieldIsValid(fields[1..], i - 1);
      assert forall j :: 1 <= j < |fields| ==> fields[j] == fields[1..][j - 1];
    } else if |fields| > 1 {
      FieldIsValid(fields[1..], 0);
      assert forall j :: 1 <= j < |fields| ==> fields[j] == fields[1..][j - 1];
    }
  }

  lemma {:induction false} FieldsAreValid(fields: Fields)
    requires forall i :: 0 <= i < |fields| ==> ValidField(fields[i])
    requires forall i :: 0 < i < |fields| ==> fields[i - 1].tag < fields[i].tag
    ensures ValidFields(fields)
  {
    if fields == [] {
    } else {
      FieldsAreValid(fields[1..]);
    }
  }

  // Ranges

  function Range(size: nat): nat {
    if size == 1 then 0x100 else if size == 2 then 0x1_0000 else if size == 4 then TWO32 else TWO64
  }

  predicate FitsSigned(i: int, size: nat) {
    -(Range(size) / 2) <= i < Range(size) / 2
  }

  predicate FitsUnsigned(i: int, size: nat) {
    0 <= i < Range(size)
  }

  // Values that a struct of the descriptor can hold

  predicate ValidValue(l: LType, v: Value) {
    match l
    case Bool => v.IntV? && (v.i == 0 || v.i == 1)
    case Int(size) => v.IntV? && FitsSigned(v.i, size)
    case UInt(size) => v.IntV? && FitsUnsigned(v.i, size)
    case SInt(size) => v.IntV? && FitsSigned(v.i, size)
    case Fixed32 => v.IntV? && 0 <= v.i < TWO32
    case Fixed64 => v.IntV? && 0 <= v.i < TWO64
    case Bytes(maxSize) => v.BytesV? && |v.bytes| <= Padded(maxSize)
    case String(bufsize) => v.BytesV? && |v.bytes| < bufsize && 0 !in v.bytes
    case FixedBytes(length) => v.BytesV? && |v.bytes| == length
    case Message(fields) => v.MsgV? && ValidSlots(fields, v.slots)
    case Callback => false
  }

  predicate ValidSlot(f: Field, s: Slot) {
    if f.ltype.Callback? then s.Calls?
    else match f.rule
      case Singular => s.One? && ValidValue(f.ltype, s.v)
      case Optional => s.Opt? && (s.o.Some? ==> ValidValue(f.ltype, s.o.value))
      case Repeated(maxCount) => s.Rep? && |s.vs| <= maxCount && forall v :: v in s.vs ==> ValidValue(f.ltype, v)
  }

  predicate ValidSlots(fields: Fields, m: Slots) {
    |fields| == |m| && (fields != [] ==> ValidSlot(fields[0], m[0]) && ValidSlots(fields[1..], m[1..]))
  }

  lemma {:induction false} SlotIsValid(fields: Fields, m: Slots, i: nat)
    requires ValidSlots(fields, m) && i < |fields|
    ensures ValidSlot(fields[i], m[i])
  {
    if i == 0 {
    } else {
      SlotIsValid(fields[1..], m[1..], i - 1);
    }
  }

  lemma {:induction false} UpdateValid(fields: Fields, m: Slots, i: nat, s: Slot)
    requires ValidSlots(fields, m) && i < |fields| && ValidSlot(fields[i], s)
    ensures ValidSlots(fields, m[i := s])
  {
    if i > 0 {
      UpdateValid(fields[1..], m[1..], i - 1, s);
      assert m[i := s][1..] == m[1..][i - 1 := s];
    } else {
      assert m[0 := s][1..] == m[1..];
    }
  }

  // Values that obey the declared sizes: a struct also holds the padding byte of an odd one

  predicate ObeysValue(l: LType, v: Value) {
    match l
    case Bytes(maxSize) => v.BytesV? ==> |v.bytes| <= maxSize
    case Message(fields) => v.MsgV? && |v.slots| == |fields| ==> Obeys(fields, v.slots)
    case _ => true
  }

  predicate ObeysSlot(f: Field, s: Slot) {
    match s
    case One(v) => ObeysValue(f.ltype, v)
    case Opt(o) => o.Some? ==> ObeysValue(f.ltype, o.value)
    case Rep(vs) => forall v :: v in vs ==> ObeysValue(f.ltype, v)
    case Calls(_) => true
  }

  predicate Obeys(fields: Fields, m: Slots)
    requires |fields| == |m|
  {
    fields == [] || (ObeysSlot(fields[0], m[0]) && Obeys(fields[1..], m[1..]))
  }

  lemma {:induction false} ObeysAt(fields: Fields, m: Slots, i: nat)
    requires |fields| == |m| && Obeys(fields, m) && i < |fields|
    ensures ObeysSlot(fields[i], m[i])
  {
    if i == 0 {
    } else {
      ObeysAt(fields[1..], m[1..], i - 1);
    }
  }

  /** No bytes field that can hold an item has an odd size, at any depth. */
  predicate EvenLType(l: LType) {
    match l
    case Bytes(maxSize) => maxSize % 2 == 0
    case Message(fields) => Even(fields)
    case _ => true
  }

  predicate EvenField(f: Field) {
    f.rule == Repeated(0) || EvenLType(f.ltype)
  }

  predicate Even(fields: Fields) {
    fields == [] || (EvenField(fields[0]) && Even(fields[1..]))
  }

  // Defaults: what pb_message_set_to_defaults leaves in a proto3 struct

  function ZeroBytes(n: nat): (s: seq<byte>)
    ensures |s| == n
  {
    seq(n, _ => 0)
  }

  function DefaultValue(l: LType): Value {
    match l
    case Bytes(_) => BytesV([])
    case String(_) => BytesV([])
    case FixedBytes(length) => BytesV(ZeroBytes(length))
    case Message(fields) => MsgV(DefaultSlots(fields))
    case _ => IntV(0)
  }

  function DefaultSlot(f: Field): Slot {
    if f.ltype.Callback? then Calls([])
    else match f.rule
      case Singular => One(DefaultValue(f.ltype))
      case Optional => Opt(None)
      case Repeated(_) => Rep([])
  }

  function DefaultSlots(fields: Fields): (m: Slots)
    ensures |m| == |fields|
  {
    if fields == [] then [] else [DefaultSlot(fields[0])] + DefaultSlots(fields[1..])
  }

  lemma {:induction false} DefaultSlotAt(fields: Fields, i: nat)
    requires i < |fields|
    ensures DefaultSlots(fields)[i] == DefaultSlot(fields[i])
  {
    if i == 0 {
    } else {
      DefaultSlotAt(fields[1..], i - 1);
    }
  }

  lemma {:induction false} DefaultIsValidValue(l: LType)
    requires ValidLType(l) && !l.Callback?
    ensures ValidValue(l, DefaultValue(l))
  {
    match l
    case Message(fields) => DefaultIsValid(fields);
    case _ =>
  }

  lemma {:induction false} DefaultIsValidSlot(f: Field)
    requires ValidField(f)
    ensures ValidSlot(f, DefaultSlot(f))
  {
    if !f.ltype.Callback? {
      DefaultIsValidValue(f.ltype);
    }
  }

  lemma {:induction false} DefaultIsValid(fields: Fields)
    requires ValidFields(fields)
    ensures ValidSlots(fields, DefaultSlots(fields))
  {
    if fields == [] {
    } else {
      DefaultIsValidSlot(fields[0]);
      DefaultIsValid(fields[1..]);
      assert DefaultSlots(fields)[1..] == DefaultSlots(fields[1..]);
    }
  }

  /** No callback fields at any depth. */
  predicate StaticLType(l: LType) {
    match l
    case Callback => false
    case Message(fields) => StaticFields(fields)
    case _ => true
  }

  predicate StaticField(f: Field) {
    StaticLType(f.ltype)
  }

  predicate StaticFields(fields: Fields) {
    fields != [] ==> StaticField(fields[0]) && StaticFields(fields[1..])
  }

  lemma {:induction false} FieldIsStatic(fields: Fields, i: nat)
    requires StaticFields(fields) && i < |fields|
    ensures StaticField(fields[i])
  {
    if i == 0 {
    } else {
      FieldIsStatic(fields[1..], i - 1);
    }
  }
}
