/**
 * How a message accumulates over buffers decoded one after another, field by field: callbacks and arrays
 * grow, scalars keep the last value, submessages merge. This is what the chunks of a transaction rely on.
 */
module Merge {
  import opened Arith
  import opened Varints
  import opened Schema
  import opened Wire
  import opened Split
  import opened Capacity

  // What a message becomes under records whose effect on the defaults is known

  /** `v` is what `base` becomes under the records that turn the default into `v0`. */
  predicate OverValue(l: LType, base: Value, v0: Value, v: Value) {
    if l.Message? then
      && base.MsgV? && v0.MsgV? && v.MsgV?
      && |l.fields| == |base.slots| == |v0.slots| == |v.slots| && OverSlots(l.fields, base.slots, v0.slots, v.slots)
    else
      v == v0 || (v == base && v0 == DefaultValue(l))
  }

  /** An optional field: what it held, what the records gave it, or, for a submessage in both, the two merged. */
  predicate OverOption(l: LType, base: Option<Value>, o0: Option<Value>, o: Option<Value>) {
    if base.None? then o == o0
    else if o0.None? then o == base && OverValue(l, base.value, DefaultValue(l), base.value)
    else if l.Message? then o.Some? && OverValue(l, base.value, o0.value, o.value)
    else o == o0
  }

  /** Every kind of field: calls and items are appended, values replaced or merged. */
  predicate Over(f: Field, base: Slot, s0: Slot, s: Slot) {
    if f.ltype.Callback? then
      base.Calls? && s0.Calls? && s.Calls? && s.calls == base.calls + s0.calls
    else match f.rule
      case Singular => base.One? && s0.One? && s.One? && OverValue(f.ltype, base.v, s0.v, s.v)
      case Optional => base.Opt? && s0.Opt? && s.Opt? && OverOption(f.ltype, base.o, s0.o, s.o)
      case Repeated(_) => base.Rep? && s0.Rep? && s.Rep? && s.vs == base.vs + s0.vs
  }

  predicate OverSlots(fields: Fields, base: Slots, m0: Slots, m: Slots)
    requires |fields| == |base| == |m0| == |m|
  {
    fields == [] || (Over(fields[0], base[0], m0[0], m[0]) && OverSlots(fields[1..], base[1..], m0[1..], m[1..]))
  }

  lemma {:induction false} OverAt(fields: Fields, base: Slots, m0: Slots, m: Slots, i: nat)
    requires |fields| == |base| == |m0| == |m| && OverSlots(fields, base, m0, m) && i < |fields|
    ensures Over(fields[i], base[i], m0[i], m[i])
  {
    if i == 0 {
    } else {
      OverAt(fields[1..], base[1..], m0[1..], m[1..], i - 1);
    }
  }

  lemma {:induction false} OverUpdate(fields: Fields, base: Slots, m0: Slots, m: Slots, i: nat, s0: Slot, s: Slot)
    requires |fields| == |base| == |m0| == |m| && OverSlots(fields, base, m0, m) && i < |fields|
    requires Over(fields[i], base[i], s0, s)
    ensures OverSlots(fields, base, m0[i := s0], m[i := s])
  {
    if i == 0 {
      assert m0[0 := s0][1..] == m0[1..] && m[0 := s][1..] == m[1..];
    } else {
      OverUpdate(fields[1..], base[1..], m0[1..], m[1..], i - 1, s0, s);
      assert m0[i := s0][1..] == m0[1..][i - 1 := s0] && m[i := s][1..] == m[1..][i - 1 := s];
    }
  }

  // No records at all leave everything as it was

  lemma {:induction false} ValueUntouched(l: LType, v: Value)
    requires ValidValue(l, v)
    ensures OverValue(l, v, DefaultValue(l), v)
  {
    match l
    case Message(fields) => Untouched(fields, v.slots);
    case _ =>
  }

  lemma {:induction false} SlotUntouched(f: Field, s: Slot)
    requires ValidSlot(f, s)
    ensures Over(f, s, DefaultSlot(f), s)
  {
    if f.ltype.Callback? {
      assert s.calls + [] == s.calls;
    } else {
      match f.rule
      case Singular => ValueUntouched(f.ltype, s.v);
      case Optional =>
        if s.o.Some? {
          ValueUntouched(f.ltype, s.o.value);
        }
      case Repeated(_) => assert s.vs + [] == s.vs;
    }
  }

  lemma {:induction false} Untouched(fields: Fields, m: Slots)
    requires ValidSlots(fields, m)
    ensures OverSlots(fields, m, DefaultSlots(fields), m)
  {
    if fields == [] {
    } else {
      SlotUntouched(fields[0], m[0]);
      Untouched(fields[1..], m[1..]);
      assert DefaultSlots(fields)[1..] == DefaultSlots(fields[1..]);
    }
  }

  // Records

  /** A scalar record replaces whatever was there. */
  lemma {:induction false} ScalarIgnoresCurrent(l: LType, v: Value, v0: Value, wireType: nat, bs: seq<byte>)
    requires !l.Message?
    ensures DecodeValue(l, v, wireType, bs) == DecodeValue(l, v0, wireType, bs)
  {}

  lemma {:induction false} ValueOver(l: LType, base: Value, v0: Value, v: Value, wireType: nat, bs: seq<byte>)
    requires OverValue(l, base, v0, v)
    requires DecodeValue(l, v, wireType, bs).Parsed? && DecodeValue(l, v0, wireType, bs).Parsed?
    ensures DecodeValue(l, v, wireType, bs).rest == DecodeValue(l, v0, wireType, bs).rest
    ensures OverValue(l, base, DecodeValue(l, v0, wireType, bs).value, DecodeValue(l, v, wireType, bs).value)
    decreases |bs|, 0
  {
    if l.Message? {
      RunOver(l.fields, base.slots, v0.slots, v.slots, TakeDelimited(bs).value);
    } else {
      ScalarIgnoresCurrent(l, v, v0, wireType, bs);
    }
  }

  lemma {:induction false} PackedOver(l: LType, base: seq<Value>, vs0: seq<Value>, vs: seq<Value>, max: nat,
                                      content: seq<byte>)
    requires vs == base + vs0
    requires DecodePacked(l, vs, max, content).Some? && DecodePacked(l, vs0, max, content).Some?
    ensures DecodePacked(l, vs, max, content).value == base + DecodePacked(l, vs0, max, content).value
    decreases |content|
  {
    if content == [] {
    } else {
      var r := DecodeValue(l, DefaultValue(l), WT_PACKED, content);
      assert vs + [r.value] == base + (vs0 + [r.value]);
      PackedOver(l, base, vs0 + [r.value], vs + [r.value], max, r.rest);
    }
  }

  lemma {:induction false} OptionOver(f: Field, base: Slot, s0: Slot, s: Slot, wireType: nat, bs: seq<byte>)
    requires !f.ltype.Callback? && f.rule.Optional? && Over(f, base, s0, s)
    requires DecodeField(f, s, wireType, bs).Parsed? && DecodeField(f, s0, wireType, bs).Parsed?
    ensures DecodeField(f, s, wireType, bs).rest == DecodeField(f, s0, wireType, bs).rest
    ensures Over(f, base, DecodeField(f, s0, wireType, bs).value, DecodeField(f, s, wireType, bs).value)
    decreases |bs|, 1
  {
    if base.o.None? {
    } else if f.ltype.Message? {
      var v0 := if s0.o.Some? then s0.o.value else DefaultValue(f.ltype);
      ValueOver(f.ltype, base.o.value, v0, s.o.value, wireType, bs);
    } else {
      ScalarIgnoresCurrent(f.ltype, s.o.value, if s0.o.Some? then s0.o.value else DefaultValue(f.ltype), wireType, bs);
    }
  }

  lemma {:induction false} ArrayOver(f: Field, base: Slot, s0: Slot, s: Slot, wireType: nat, bs: seq<byte>)
    requires !f.ltype.Callback? && f.rule.Repeated? && Over(f, base, s0, s)
    requires DecodeField(f, s, wireType, bs).Parsed? && DecodeField(f, s0, wireType, bs).Parsed?
    ensures DecodeField(f, s, wireType, bs).rest == DecodeField(f, s0, wireType, bs).rest
    ensures Over(f, base, DecodeField(f, s0, wireType, bs).value, DecodeField(f, s, wireType, bs).value)
  {
    if wireType == WT_STRING && Packable(f.ltype) {
      PackedOver(f.ltype, base.vs, s0.vs, s.vs, f.rule.maxCount, TakeDelimited(bs).value);
    } else {
      var item := DecodeValue(f.ltype, DefaultValue(f.ltype), wireType, bs).value;
      assert s.vs + [item] == base.vs + (s0.vs + [item]);
    }
  }

  lemma {:induction false} CallsOver(f: Field, base: Slot, s0: Slot, s: Slot, wireType: nat, bs: seq<byte>)
    requires f.ltype.Callback? && Over(f, base, s0, s)
    requires DecodeField(f, s, wireType, bs).Parsed? && DecodeField(f, s0, wireType, bs).Parsed?
    ensures DecodeField(f, s, wireType, bs).rest == DecodeField(f, s0, wireType, bs).rest
    ensures Over(f, base, DecodeField(f, s0, wireType, bs).value, DecodeField(f, s, wireType, bs).value)
  {
    var calls := DecodeField(f, s0, wireType, bs).value.calls;
    var call := calls[|calls| - 1];
    assert s.calls + [call] == base.calls + (s0.calls + [call]);
  }

  lemma {:induction false} FieldOver(f: Field, base: Slot, s0: Slot, s: Slot, wireType: nat, bs: seq<byte>)
    requires Over(f, base, s0, s)
    requires DecodeField(f, s, wireType, bs).Parsed? && DecodeField(f, s0, wireType, bs).Parsed?
    ensures DecodeField(f, s, wireType, bs).rest == DecodeField(f, s0, wireType, bs).rest
    ensures Over(f, base, DecodeField(f, s0, wireType, bs).value, DecodeField(f, s, wireType, bs).value)
    decreases |bs|, 2
  {
    if f.ltype.Callback? {
      CallsOver(f, base, s0, s, wireType, bs);
    } else {
      match f.rule
      case Singular => ValueOver(f.ltype, base.v, s0.v, s.v, wireType, bs);
      case Optional => OptionOver(f, base, s0, s, wireType, bs);
      case Repeated(_) => ArrayOver(f, base, s0, s, wireType, bs);
    }
  }

  lemma {:induction false} RecordOver(fields: Fields, base: Slots, m0: Slots, m: Slots, bs: seq<byte>)
    requires |fields| == |base| == |m0| == |m| && OverSlots(fields, base, m0, m)
    requires DecodeRecord(fields, m, bs).Parsed? && DecodeRecord(fields, m0, bs).Parsed?
    ensures DecodeRecord(fields, m, bs).rest == DecodeRecord(fields, m0, bs).rest
    ensures OverSlots(fields, base, DecodeRecord(fields, m0, bs).value, DecodeRecord(fields, m, bs).value)
    decreases |bs|, 3
  {
    var word, rest := Read32(bs).value, Read32(bs).rest;
    var i := Find(fields, word / 8);
    if i < |fields| {
      OverAt(fields, base, m0, m, i);
      FieldOver(fields[i], base[i], m0[i], m[i], word % 8, rest);
      OverUpdate(fields, base, m0, m, i, DecodeField(fields[i], m0[i], word % 8, rest).value,
                 DecodeField(fields[i], m[i], word % 8, rest).value);
    }
  }

  lemma {:induction false} RunOver(fields: Fields, base: Slots, m0: Slots, m: Slots, bs: seq<byte>)
    requires |fields| == |base| == |m0| == |m| && OverSlots(fields, base, m0, m)
    requires DecodeFields(fields, m, bs).Some? && DecodeFields(fields, m0, bs).Some?
    ensures OverSlots(fields, base, DecodeFields(fields, m0, bs).value, DecodeFields(fields, m, bs).value)
    decreases |bs|, 4
  {
    if bs == [] {
    } else {
      RecordOver(fields, base, m0, m, bs);
      var r, r0 := DecodeRecord(fields, m, bs), DecodeRecord(fields, m0, bs);
      RunOver(fields, base, r0.value, r.value, r.rest);
    }
  }

  /**
   * For every schema: decoding a concatenation is accumulating what its second part decodes to on its own,
   * field by field: appended calls and array items, last scalar value, merged submessages.
   */
  lemma {:induction false} ConcatOver(fields: Fields, m: Slots, a: seq<byte>, b: seq<byte>)
    requires ValidFields(fields) && ValidSlots(fields, m)
    requires DecodeFields(fields, m, a).Some? && Decode(fields, b).Some? && DecodeFields(fields, m, a + b).Some?
    ensures OverSlots(fields, DecodeFields(fields, m, a).value, Decode(fields, b).value,
                      DecodeFields(fields, m, a + b).value)
  {
    var ma := DecodeFields(fields, m, a).value;
    DecodeSplit(fields, m, a, b);
    DecodeKeepsValid(fields, m, a);
    Untouched(fields, ma);
    RunOver(fields, ma, DefaultSlots(fields), ma, b);
  }

  // A part that decodes on its own fails on top of another only for reasons that stay

  lemma {:induction false} ValueStays(l: LType, v: Value, v0: Value, wireType: nat, a: seq<byte>, b: seq<byte>)
    requires DecodeValue(l, v0, wireType, a).Parsed? && DecodeValue(l, v, wireType, a + b).Parsed?
    ensures DecodeValue(l, v, wireType, a).Parsed?
    ensures DecodeValue(l, v, wireType, a).rest == DecodeValue(l, v0, wireType, a).rest
  {
    if l.Message? {
      TakeDelimitedPrefix(a, b);
    } else {
      ScalarIgnoresCurrent(l, v, v0, wireType, a);
    }
  }

  lemma {:induction false} FieldStays(f: Field, s: Slot, s0: Slot, wireType: nat, a: seq<byte>, b: seq<byte>)
    requires ValidSlot(f, s) && ValidSlot(f, s0)
    requires DecodeField(f, s0, wireType, a).Parsed? && DecodeField(f, s, wireType, a + b).Parsed?
    ensures DecodeField(f, s, wireType, a).Parsed?
    ensures DecodeField(f, s, wireType, a).rest == DecodeField(f, s0, wireType, a).rest
  {
    if f.ltype.Callback? {
    } else {
      match f.rule
      case Singular => ValueStays(f.ltype, s.v, s0.v, wireType, a, b);
      case Optional =>
        var d := DefaultValue(f.ltype);
        ValueStays(f.ltype, if s.o.Some? then s.o.value else d, if s0.o.Some? then s0.o.value else d, wireType, a, b);
      case Repeated(_) =>
        if wireType == WT_STRING && Packable(f.ltype) {
          TakeDelimitedPrefix(a, b);
        }
    }
  }

  lemma {:induction false} RecordStays(fields: Fields, m: Slots, m0: Slots, a: seq<byte>, b: seq<byte>)
    requires ValidSlots(fields, m) && ValidSlots(fields, m0)
    requires DecodeRecord(fields, m0, a).Parsed? && DecodeRecord(fields, m, a + b).Parsed?
    ensures DecodeRecord(fields, m, a).Parsed? && DecodeRecord(fields, m, a).rest == DecodeRecord(fields, m0, a).rest
  {
    Read32Prefix(a, b);
    var word, rest := Read32(a).value, Read32(a).rest;
    var i := Find(fields, word / 8);
    if i < |fields| {
      SlotIsValid(fields, m, i);
      SlotIsValid(fields, m0, i);
      FieldStays(fields[i], m[i], m0[i], word % 8, rest, b);
    }
  }

  /**
   * In every schema: if a part decodes into one message, and into another with more bytes behind it, then it decodes
   * into that other message without them.
   */
  lemma {:induction false} RunStays(fields: Fields, m: Slots, m0: Slots, a: seq<byte>, b: seq<byte>)
    requires ValidFields(fields) && ValidSlots(fields, m) && ValidSlots(fields, m0)
    requires DecodeFields(fields, m0, a).Some? && DecodeFields(fields, m, a + b).Some?
    ensures DecodeFields(fields, m, a).Some?
    decreases |a|
  {
    if a == [] {
    } else {
      DecodeRecordPrefix(fields, m0, a, b);
      RecordStays(fields, m, m0, a, b);
      DecodeRecordPrefix(fields, m, a, b);
      var r, r0 := DecodeRecord(fields, m, a), DecodeRecord(fields, m0, a);
      RecordKeepsValid(fields, m, a);
      RecordKeepsValid(fields, m0, a);
      RunStays(fields, r.value, r0.value, r.rest, b);
    }
  }

  // The last record of a field

  /** The slot that the last record for field k leaves, if there is such a record. */
  function LastRecord(fields: Fields, m: Slots, bs: seq<byte>, k: nat): Option<Slot>
    requires |fields| == |m| && k < |fields|
    decreases |bs|
  {
    if bs == [] then None
    else
      match DecodeRecord(fields, m, bs)
      case Malformed => None
      case Parsed(m', rest) =>
        var later := LastRecord(fields, m', rest, k);
        if later.Some? then later
        else if Find(fields, Read32(bs).value / 8) == k then Some(m'[k]) else None
  }

  /** What a field holds in the end is its last record, or else what it held before. */
  lemma {:induction false} LastRecordWins(fields: Fields, m: Slots, bs: seq<byte>, k: nat)
    requires |fields| == |m| && k < |fields| && DecodeFields(fields, m, bs).Some?
    ensures
      var last := LastRecord(fields, m, bs, k);
      DecodeFields(fields, m, bs).value[k] == if last.Some? then last.value else m[k]
    decreases |bs|
  {
    if bs == [] {
    } else {
      var r := DecodeRecord(fields, m, bs);
      LastRecordWins(fields, r.value, r.rest, k);
    }
  }

  /** The last record of a concatenation is that of the second part, if it has one. */
  lemma {:induction false} LastRecordConcat(fields: Fields, m: Slots, a: seq<byte>, b: seq<byte>, k: nat)
    requires |fields| == |m| && k < |fields| && DecodeFields(fields, m, a).Some?
    ensures
      var last := LastRecord(fields, DecodeFields(fields, m, a).value, b, k);
      LastRecord(fields, m, a + b, k) == if last.Some? then last else LastRecord(fields, m, a, k)
    decreases |a|
  {
    if a == [] {
      assert a + b == b;
    } else {
      DecodeRecordPrefix(fields, m, a, b);
      Read32Prefix(a, b);
      var r := DecodeRecord(fields, m, a);
      LastRecordConcat(fields, r.value, r.rest, b, k);
    }
  }

  /** For a scalar, which record is last and its value do not depend on the message that is decoded into. */
  lemma {:induction false} LastRecordSame(fields: Fields, m: Slots, m0: Slots, bs: seq<byte>, k: nat)
    requires ValidFields(fields) && ValidSlots(fields, m) && ValidSlots(fields, m0) && k < |fields|
    requires !fields[k].ltype.Callback? && !fields[k].ltype.Message? && fields[k].rule.Singular?
    requires DecodeFields(fields, m, bs).Some? && DecodeFields(fields, m0, bs).Some?
    ensures LastRecord(fields, m, bs, k) == LastRecord(fields, m0, bs, k)
    decreases |bs|
  {
    if bs == [] {
    } else {
      var r, r0 := DecodeRecord(fields, m, bs), DecodeRecord(fields, m0, bs);
      assert bs + [] == bs;
      RecordStays(fields, m, m0, bs, []);
      RecordScalar(fields, m, m0, bs, k);
      RecordKeepsValid(fields, m, bs);
      RecordKeepsValid(fields, m0, bs);
      LastRecordSame(fields, r.value, r0.value, r.rest, k);
    }
  }

  lemma {:induction false} RecordScalar(fields: Fields, m: Slots, m0: Slots, bs: seq<byte>, k: nat)
    requires ValidSlots(fields, m) && ValidSlots(fields, m0) && k < |fields|
    requires !fields[k].ltype.Callback? && !fields[k].ltype.Message? && fields[k].rule.Singular?
    requires DecodeRecord(fields, m, bs).Parsed? && DecodeRecord(fields, m0, bs).Parsed?
    ensures Find(fields, Read32(bs).value / 8) == k ==>
              DecodeRecord(fields, m, bs).value[k] == DecodeRecord(fields, m0, bs).value[k]
  {
    SlotIsValid(fields, m, k);
    SlotIsValid(fields, m0, k);
    ScalarIgnoresCurrent(fields[k].ltype, m[k].v, m0[k].v, Read32(bs).value % 8, Read32(bs).rest);
  }
}
