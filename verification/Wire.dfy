/** The wire encoding of messages: what pb_encode emits and what pb_decode makes of a byte string. */
module Wire {
  import opened Arith
  import opened Varints
  import opened Schema

  // Wire types

  const WT_VARINT: nat := 0
  const WT_64BIT: nat := 1
  const WT_STRING: nat := 2
  const WT_32BIT: nat := 5
  /** Marks the items of a packed array, which carry no tag of their own. */
  const WT_PACKED: nat := 0xFF

  function WireType(l: LType): nat {
    match l
    case Fixed32 => WT_32BIT
    case Fixed64 => WT_64BIT
    case Bool => WT_VARINT
    case Int(_) => WT_VARINT
    case UInt(_) => WT_VARINT
    case SInt(_) => WT_VARINT
    case _ => WT_STRING
  }

  function Tag(tag: nat, wireType: nat): seq<byte> {
    Varint(tag * 8 + wireType)
  }

  function Delimited(s: seq<byte>): seq<byte> {
    Varint(|s|) + s
  }

  // Little-endian words

  function LittleEndian(v: nat, n: nat): (s: seq<byte>)
    ensures |s| == n
  {
    if n == 0 then [] else [v % 256] + LittleEndian(v / 256, n - 1)
  }

  function FromLittleEndian(s: seq<byte>): nat {
    if s == [] then 0 else s[0] + 256 * FromLittleEndian(s[1..])
  }

  lemma {:induction false} LittleEndianRoundTrip(v: nat, n: nat)
    requires v < Pow(256, n)
    ensures FromLittleEndian(LittleEndian(v, n)) == v
  {
    if n == 0 {
    } else {
      LittleEndianRoundTrip(v / 256, n - 1);
      assert LittleEndian(v, n)[1..] == LittleEndian(v / 256, n - 1);
    }
  }

  lemma {:induction false} FromLittleEndianBound(s: seq<byte>)
    ensures FromLittleEndian(s) < Pow(256, |s|)
  {
    if s == [] {
    } else {
      FromLittleEndianBound(s[1..]);
    }
  }

  lemma {:induction false} Pow256Words()
    ensures Pow(256, 4) == TWO32 && Pow(256, 8) == TWO64
  {}

  // Encoding

  /** Whether a field without presence flag is left out, decided as pb_check_proto3_default_value does. */
  predicate Omitted(l: LType, v: Value) {
    match l
    case Bytes(_) => v.BytesV? && v.bytes == []
    case String(_) => v.BytesV? && v.bytes == []
    case FixedBytes(length) => length == 0
    case Message(fields) => v.MsgV? && |v.slots| == |fields| && AllOmitted(fields, v.slots)
    case _ => v.IntV? && v.i == 0
  }

  predicate OmittedSlot(f: Field, s: Slot) {
    match s
    case One(v) => Omitted(f.ltype, v)
    case Opt(o) => o.None?
    case Rep(vs) => vs == []
    case Calls(_) => true
  }

  predicate AllOmitted(fields: Fields, m: Slots)
    requires |fields| == |m|
  {
    fields == [] || (OmittedSlot(fields[0], m[0]) && AllOmitted(fields[1..], m[1..]))
  }

  /** The 64-bit word that an integer item becomes. */
  function Word(l: LType, i: int): nat {
    if l.SInt? then (if i < 0 then -2 * i - 1 else 2 * i)
    else if i < 0 then (if i + TWO64 < 0 then 0 else i + TWO64)
    else i
  }

  /** An item without its tag. */
  function EncodeValue(l: LType, v: Value): seq<byte> {
    match v
    case IntV(i) =>
      if l.Fixed32? then LittleEndian(if i < 0 then 0 else i, 4)
      else if l.Fixed64? then LittleEndian(if i < 0 then 0 else i, 8)
      else Varint(Word(l, i))
    case BytesV(bytes) => Delimited(bytes)
    case MsgV(slots) =>
      if l.Message? && |slots| == |l.fields| then Delimited(Encode(l.fields, slots)) else []
  }

  function EncodeItem(f: Field, v: Value): seq<byte> {
    Tag(f.tag, WireType(f.ltype)) + EncodeValue(f.ltype, v)
  }

  /** Items back to back, each with its tag. */
  function EncodeItems(f: Field, vs: seq<Value>): seq<byte> {
    if vs == [] then [] else EncodeItem(f, vs[0]) + EncodeItems(f, vs[1..])
  }

  /** Items back to back, without tags. */
  function EncodePacked(l: LType, vs: seq<Value>): seq<byte> {
    if vs == [] then [] else EncodeValue(l, vs[0]) + EncodePacked(l, vs[1..])
  }

  function EncodeField(f: Field, s: Slot): seq<byte> {
    match s
    case One(v) => if Omitted(f.ltype, v) then [] else EncodeItem(f, v)
    case Opt(o) => if o.None? then [] else EncodeItem(f, o.value)
    case Rep(vs) =>
      if vs == [] then []
      else if Packable(f.ltype) then Tag(f.tag, WT_STRING) + Delimited(EncodePacked(f.ltype, vs))
      else EncodeItems(f, vs)
    case Calls(_) => []
  }

  function Encode(fields: Fields, m: Slots): seq<byte>
    requires |fields| == |m|
  {
    if fields == [] then [] else EncodeField(fields[0], m[0]) + Encode(fields[1..], m[1..])
  }

  // Decoding

  /** Reads a fixed number of bytes. */
  function Take(bs: seq<byte>, n: nat): (r: Parsed<seq<byte>>)
    ensures r.Parsed? ==> |r.value| == n && |r.rest| + n == |bs|
  {
    if n <= |bs| then Parsed(bs[..n], bs[n..]) else Malformed
  }

  /** Reads a length and that many bytes: the content of a substream. */
  function TakeDelimited(bs: seq<byte>): (r: Parsed<seq<byte>>)
    ensures r.Parsed? ==> |r.value| + |r.rest| < |bs|
  {
    match Read32(bs)
    case Malformed => Malformed
    case Parsed(n, rest) => Take(rest, n)
  }

  /** A C string: the bytes before the first NUL. */
  function CString(s: seq<byte>): (r: seq<byte>)
    ensures |r| <= |s| && 0 !in r
  {
    if s == [] || s[0] == 0 then [] else [s[0]] + CString(s[1..])
  }

  /** An integer item from its word: range-checked, after truncation to 32 bits for narrow signed fields. */
  function FromWord(l: LType, w: u64): Option<int> {
    match l
    case UInt(size) => if FitsUnsigned(w, size) then Some(w) else None
    case SInt(size) => var i := UnZigZag(w); if FitsSigned(i, size) then Some(i) else None
    case Int(size) =>
      var i := if size == 8 then Signed64(w) else Signed32(w % TWO32);
      if FitsSigned(i, size) then Some(i) else None
    case _ => None
  }

  function DecodeInt(l: LType, wireType: nat, bs: seq<byte>): (r: Parsed<Value>)
    ensures r.Parsed? ==> |r.rest| < |bs|
  {
    if wireType != WT_VARINT && wireType != WT_PACKED then Malformed
    else if l.Bool? then
      match Read32(bs)
      case Malformed => Malformed
      case Parsed(n, rest) => Parsed(IntV(if n != 0 then 1 else 0), rest)
    else
      match Read64(bs)
      case Malformed => Malformed
      case Parsed(w, rest) => if FromWord(l, w).None? then Malformed else Parsed(IntV(FromWord(l, w).value), rest)
  }

  function DecodeFixed(n: nat, expected: nat, wireType: nat, bs: seq<byte>): (r: Parsed<Value>)
    requires n > 0
    ensures r.Parsed? ==> |r.rest| < |bs|
  {
    if wireType != expected && wireType != WT_PACKED then Malformed
    else
      match Take(bs, n)
      case Malformed => Malformed
      case Parsed(s, rest) => Parsed(IntV(FromLittleEndian(s)), rest)
  }

  /** Byte strings: a length within the capacity of the struct, then the bytes. */
  function DecodeBytes(l: LType, bs: seq<byte>): (r: Parsed<Value>)
    requires l.Bytes? || l.String? || l.FixedBytes?
    ensures r.Parsed? ==> |r.rest| < |bs|
  {
    match Read32(bs)
    case Malformed => Malformed
    case Parsed(n, rest) =>
      match l
      case Bytes(maxSize) =>
        if n > SIZE_MAX || n > Padded(maxSize) then Malformed
        else if n <= |rest| then Parsed(BytesV(rest[..n]), rest[n..]) else Malformed
      case String(bufsize) =>
        if n == TWO32 - 1 || n + 1 > bufsize then Malformed
        else if n <= |rest| then Parsed(BytesV(CString(rest[..n])), rest[n..]) else Malformed
      case FixedBytes(length) =>
        if n > SIZE_MAX then Malformed
        else if n == 0 then Parsed(BytesV(ZeroBytes(length)), rest)
        else if n != length then Malformed
        else if n <= |rest| then Parsed(BytesV(rest[..n]), rest[n..]) else Malformed
  }

  /** One item; `current` is what the struct holds, which a submessage is merged into. */
  function DecodeValue(l: LType, current: Value, wireType: nat, bs: seq<byte>): (r: Parsed<Value>)
    ensures r.Parsed? ==> |r.rest| < |bs|
    decreases |bs|, 0
  {
    match l
    case Fixed32 => DecodeFixed(4, WT_32BIT, wireType, bs)
    case Fixed64 => DecodeFixed(8, WT_64BIT, wireType, bs)
    case Bytes(_) => if wireType != WT_STRING then Malformed else DecodeBytes(l, bs)
    case String(_) => if wireType != WT_STRING then Malformed else DecodeBytes(l, bs)
    case FixedBytes(_) => if wireType != WT_STRING then Malformed else DecodeBytes(l, bs)
    case Message(fields) =>
      if wireType != WT_STRING || !current.MsgV? || |current.slots| != |fields| then Malformed
      else
        (match TakeDelimited(bs)
         case Malformed => Malformed
         case Parsed(content, rest) =>
           match DecodeFields(fields, current.slots, content)
           case None => Malformed
           case Some(slots) => Parsed(MsgV(slots), rest))
    case Callback => Malformed
    case _ => DecodeInt(l, wireType, bs)
  }

  /** Items of a packed array, appended while the array has room; the content must be used up. */
  function DecodePacked(l: LType, vs: seq<Value>, maxCount: nat, content: seq<byte>): Option<seq<Value>>
    decreases |content|, 1
  {
    if content == [] then Some(vs)
    else if |vs| >= maxCount then None
    else
      match DecodeValue(l, DefaultValue(l), WT_PACKED, content)
      case Malformed => None
      case Parsed(v, rest) => DecodePacked(l, vs + [v], maxCount, rest)
  }

  /** The raw bytes of a scalar that is handed to a callback. */
  function TakeRaw(wireType: nat, bs: seq<byte>): (r: Parsed<seq<byte>>)
    ensures r.Parsed? ==> |r.rest| < |bs|
  {
    if wireType == WT_VARINT then
      var n := VarintLength(bs);
      if 0 < n <= 10 then Parsed(bs[..n], bs[n..]) else Malformed
    else if wireType == WT_64BIT then Take(bs, 8)
    else if wireType == WT_32BIT then Take(bs, 4)
    else Malformed
  }

  function DecodeCallback(calls: seq<Call>, wireType: nat, bs: seq<byte>): (r: Parsed<Slot>)
    ensures r.Parsed? ==> |r.rest| < |bs|
  {
    match (if wireType == WT_STRING then TakeDelimited(bs) else TakeRaw(wireType, bs))
    case Malformed => Malformed
    case Parsed(payload, rest) => Parsed(Calls(calls + [Call(wireType == WT_STRING, payload)]), rest)
  }

  /** One record for a known field. */
  function DecodeField(f: Field, s: Slot, wireType: nat, bs: seq<byte>): (r: Parsed<Slot>)
    ensures r.Parsed? ==> |r.rest| < |bs|
    decreases |bs|, 2
  {
    match s
    case Calls(calls) => if f.ltype.Callback? then DecodeCallback(calls, wireType, bs) else Malformed
    case One(v) =>
      (match DecodeValue(f.ltype, v, wireType, bs)
       case Malformed => Malformed
       case Parsed(w, rest) => Parsed(One(w), rest))
    case Opt(o) =>
      (match DecodeValue(f.ltype, if o.Some? then o.value else DefaultValue(f.ltype), wireType, bs)
       case Malformed => Malformed
       case Parsed(w, rest) => Parsed(Opt(Some(w)), rest))
    case Rep(vs) =>
      if !f.rule.Repeated? then Malformed
      else if wireType == WT_STRING && Packable(f.ltype) then
        (match TakeDelimited(bs)
         case Malformed => Malformed
         case Parsed(content, rest) =>
           match DecodePacked(f.ltype, vs, f.rule.maxCount, content)
           case None => Malformed
           case Some(ws) => Parsed(Rep(ws), rest))
      else if |vs| >= f.rule.maxCount then Malformed
      else
        (match DecodeValue(f.ltype, DefaultValue(f.ltype), wireType, bs)
         case Malformed => Malformed
         case Parsed(w, rest) => Parsed(Rep(vs + [w]), rest))
  }

  /** An unknown field is passed over. */
  function SkipField(wireType: nat, bs: seq<byte>): (r: Parsed<()>)
    ensures r.Parsed? ==> |r.rest| < |bs|
  {
    if wireType == WT_VARINT then
      var n := VarintLength(bs);
      if n > 0 then Parsed((), bs[n..]) else Malformed
    else if wireType == WT_64BIT then (if 8 <= |bs| then Parsed((), bs[8..]) else Malformed)
    else if wireType == WT_STRING then
      (match TakeDelimited(bs)
       case Malformed => Malformed
       case Parsed(_, rest) => Parsed((), rest))
    else if wireType == WT_32BIT then (if 4 <= |bs| then Parsed((), bs[4..]) else Malformed)
    else Malformed
  }

  /** Index of the field with a tag, or the number of fields. */
  function Find(fields: Fields, tag: nat): (i: nat)
    ensures i <= |fields| && (i < |fields| ==> fields[i].tag == tag)
    ensures forall j :: 0 <= j < i ==> fields[j].tag != tag
  {
    if fields == [] then 0
    else if fields[0].tag == tag then 0
    else
      assert forall j :: 1 <= j < |fields| ==> fields[j] == fields[1..][j - 1];
      1 + Find(fields[1..], tag)
  }

  /** One record: the message after it and the bytes behind it. */
  function DecodeRecord(fields: Fields, m: Slots, bs: seq<byte>): (r: Parsed<Slots>)
    requires |fields| == |m|
    ensures r.Parsed? ==> |r.rest| < |bs| && |r.value| == |m|
    decreases |bs|, 3
  {
    match Read32(bs)
    case Malformed => Malformed
    case Parsed(word, rest) =>
      var tag, wireType := word / 8, word % 8;
      var i := Find(fields, tag);
      if tag == 0 then Malformed
      else if i == |fields| then
        match SkipField(wireType, rest)
        case Malformed => Malformed
        case Parsed(_, rest') => Parsed(m, rest')
      else
        Placed(m, i, DecodeField(fields[i], m[i], wireType, rest))
  }

  /** A decoded slot put back into its message. */
  function Placed(m: Slots, i: nat, r: Parsed<Slot>): Parsed<Slots>
    requires i < |m|
  {
    match r
    case Malformed => Malformed
    case Parsed(s, rest) => Parsed(m[i := s], rest)
  }

  /** All records of a buffer, applied in order to a message. */
  function DecodeFields(fields: Fields, m: Slots, bs: seq<byte>): (r: Option<Slots>)
    requires |fields| == |m|
    ensures r.Some? ==> |r.value| == |fields|
    decreases |bs|, 4
  {
    if bs == [] then Some(m)
    else
      match DecodeRecord(fields, m, bs)
      case Malformed => None
      case Parsed(m', rest) => DecodeFields(fields, m', rest)
  }

  /** pb_decode: starts from the defaults. */
  function Decode(fields: Fields, bs: seq<byte>): Option<Slots> {
    DecodeFields(fields, DefaultSlots(fields), bs)
  }
}
