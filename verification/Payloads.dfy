/** What the device records of a transaction, from the bytes of the transaction. */
module Payloads {
  import opened Arith
  import opened Varints
  import opened Schema
  import opened Wire
  import opened Split
  import opened RoundTrip
  import opened Format
  import opened Transaction
  import opened Chunks

  // Records

  function NumberRecord(tag: nat, w: nat): seq<byte> {
    Tag(tag, 0) + Varint(w)
  }

  function StringRecord(tag: nat, s: seq<byte>): seq<byte> {
    Tag(tag, 2) + Delimited(s)
  }

  /** A record in front of others. */
  lemma {:induction false} Leads(fields: Fields, m: Slots, a: seq<byte>, m': Slots, rest: seq<byte>)
    requires |fields| == |m| == |m'| && DecodeFields(fields, m, a) == Some(m')
    ensures DecodeFields(fields, m, a + rest) == DecodeFields(fields, m', rest)
  {
    DecodeSplit(fields, m, a, rest);
  }

  lemma {:induction false} NumberLeads(fields: Fields, m: Slots, k: nat, w: u64, i: int, rest: seq<byte>)
    requires ValidFields(fields) && |fields| == |m| && k < |fields| && m[k].One?
    requires (fields[k].ltype.Int? || fields[k].ltype.UInt?) && Reads(fields[k].ltype, w, i)
    ensures DecodeFields(fields, m, NumberRecord(fields[k].tag, w) + rest) ==
            DecodeFields(fields, m[k := One(IntV(i))], rest)
  {
    FieldIsValid(fields, k);
    IntegerIff(fields[k].ltype, w, i, []);
    assert Varint(w) + [] == Varint(w);
    SingleRecord(fields, m, k, 0, Varint(w), One(IntV(i)));
    Leads(fields, m, NumberRecord(fields[k].tag, w), m[k := One(IntV(i))], rest);
  }

  lemma {:induction false} BytesLead(fields: Fields, m: Slots, k: nat, s: seq<byte>, rest: seq<byte>)
    requires ValidFields(fields) && |fields| == |m| && k < |fields| && m[k].One?
    requires fields[k].ltype == FixedBytes(|s|)
    ensures DecodeFields(fields, m, StringRecord(fields[k].tag, s) + rest) ==
            DecodeFields(fields, m[k := One(BytesV(s))], rest)
  {
    FieldIsValid(fields, k);
    ByteStringIff(fields[k].ltype, s, BytesV(s), []);
    assert Delimited(s) + [] == Delimited(s);
    SingleRecord(fields, m, k, 2, Delimited(s), One(BytesV(s)));
    Leads(fields, m, StringRecord(fields[k].tag, s), m[k := One(BytesV(s))], rest);
  }

  lemma {:induction false} CallLeads(fields: Fields, m: Slots, k: nat, s: seq<byte>, rest: seq<byte>)
    requires ValidFields(fields) && |fields| == |m| && k < |fields| && fields[k].ltype.Callback? && m[k].Calls?
    requires |s| < TWO32
    ensures
      DecodeFields(fields, m, StringRecord(fields[k].tag, s) + rest) ==
      DecodeFields(fields, m[k := Calls(m[k].calls + [Call(true, s)])], rest)
  {
    CallbackGets(fields, m, k, 2, s);
    Leads(fields, m, StringRecord(fields[k].tag, s), m[k := Calls(m[k].calls + [Call(true, s)])], rest);
  }

  /** A submessage in a field that holds none yet. */
  lemma {:induction false} MessageLeads(fields: Fields, m: Slots, k: nat, s: seq<byte>, sub: Slots, rest: seq<byte>)
    requires ValidFields(fields) && |fields| == |m| && k < |fields| && fields[k].ltype.Message? && |s| < TWO32
    requires m[k] == Opt(None) || (m[k] == Rep([]) && fields[k].rule.Repeated? && fields[k].rule.maxCount > 0)
    requires Decode(fields[k].ltype.fields, s) == Some(sub)
    ensures
      DecodeFields(fields, m, StringRecord(fields[k].tag, s) + rest) ==
      DecodeFields(fields, m[k := if m[k].Opt? then Opt(Some(MsgV(sub))) else Rep([MsgV(sub)])], rest)
  {
    var slot := if m[k].Opt? then Opt(Some(MsgV(sub))) else Rep([MsgV(sub)]);
    DelimitedRoundTrip(s, []);
    assert Delimited(s) + [] == Delimited(s) && [] + [MsgV(sub)] == [MsgV(sub)];
    SingleRecord(fields, m, k, 2, Delimited(s), slot);
    Leads(fields, m, StringRecord(fields[k].tag, s), m[k := slot], rest);
  }

  lemma {:induction false} Whole(w: u64)
    ensures Reads(Int(8), w, Signed64(w)) && Cast64(Signed64(w)) == w
  {
    Ranges(8);
    LowWord(w);
    if w < TWO63 {
      SmallMod(w, TWO64);
    } else {
      DivModUnique(w - TWO64, TWO64, -1, w);
    }
  }

  // Contracts

  /** A TRX transfer as a wallet spells it. */
  function TransferBytes(owner: seq<byte>, to: seq<byte>, amount: nat): seq<byte> {
    StringRecord(1, owner) + (StringRecord(2, to) + (NumberRecord(3, amount) + []))
  }

  lemma {:induction false} DefaultTransfer()
    ensures ValidFields(TRANSFER_CONTRACT)
    ensures DefaultSlots(TRANSFER_CONTRACT) ==
            [One(BytesV(ZeroBytes(21))), One(BytesV(ZeroBytes(21))), One(IntV(0))]
  {
    FieldsAreValid(TRANSFER_CONTRACT);
    DefaultSlotAt(TRANSFER_CONTRACT, 0);
    DefaultSlotAt(TRANSFER_CONTRACT, 1);
    DefaultSlotAt(TRANSFER_CONTRACT, 2);
  }

  lemma {:induction false} TransferFieldsDecode(fields: Fields, m: Slots, owner: seq<byte>, to: seq<byte>, amount: u64)
    requires ValidFields(fields) && |fields| == 3 && fields[0] == Field(1, Singular, FixedBytes(21))
    requires fields[1] == Field(2, Singular, FixedBytes(21)) && fields[2] == Field(3, Singular, Int(8))
    requires |m| == 3 && m[0].One? && m[1].One? && m[2].One? && |owner| == 21 && |to| == 21
    ensures DecodeFields(fields, m, TransferBytes(owner, to, amount)) ==
            Some([One(BytesV(owner)), One(BytesV(to)), One(IntV(Signed64(amount)))])
  {
    var m1 := m[0 := One(BytesV(owner))];
    var m2 := m1[1 := One(BytesV(to))];
    Whole(amount);
    BytesLead(fields, m, 0, owner, StringRecord(2, to) + (NumberRecord(3, amount) + []));
    BytesLead(fields, m1, 1, to, NumberRecord(3, amount) + []);
    NumberLeads(fields, m2, 2, amount, Signed64(amount), []);
    assert m2[2 := One(IntV(Signed64(amount)))] == [One(BytesV(owner)), One(BytesV(to)), One(IntV(Signed64(amount)))];
  }

  /** Owner, recipient and amount are recorded from fields 1, 2 and 3. */
  lemma {:induction false} TransferRead(owner: seq<byte>, to: seq<byte>, amount: u64)
    requires |owner| == 21 && |to| == 21
    ensures TransferDetail(TransferBytes(owner, to, amount)) == Some(Transfer(owner, to, amount))
  {
    DefaultTransfer();
    Whole(amount);
    TransferFieldsDecode(TRANSFER_CONTRACT, DefaultSlots(TRANSFER_CONTRACT), owner, to, amount);
  }

  /** A smart contract call as a wallet spells it; negative numbers are extended to 64 bits. */
  function TriggerBytes(owner: seq<byte>, contract: seq<byte>, callValue: nat, data: seq<byte>, tokenValue: nat,
                        tokenId: nat): seq<byte> {
    StringRecord(1, owner) + (StringRecord(2, contract) + (NumberRecord(3, callValue) +
    (StringRecord(4, data) + (NumberRecord(5, tokenValue) + (NumberRecord(6, tokenId) + [])))))
  }

  function TriggerSlots(owner: seq<byte>, contract: seq<byte>, callValue: int, calls: seq<Call>, tokenValue: int,
                        tokenId: int): Slots {
    [One(BytesV(owner)), One(BytesV(contract)), One(IntV(callValue)), Calls(calls), One(IntV(tokenValue)),
     One(IntV(tokenId))]
  }

  lemma {:induction false} DefaultTrigger()
    ensures ValidFields(TRIGGER_SMART_CONTRACT)
    ensures DefaultSlots(TRIGGER_SMART_CONTRACT) == TriggerSlots(ZeroBytes(21), ZeroBytes(21), 0, [], 0, 0)
  {
    FieldsAreValid(TRIGGER_SMART_CONTRACT);
    DefaultSlotAt(TRIGGER_SMART_CONTRACT, 0);
    DefaultSlotAt(TRIGGER_SMART_CONTRACT, 1);
    DefaultSlotAt(TRIGGER_SMART_CONTRACT, 2);
    DefaultSlotAt(TRIGGER_SMART_CONTRACT, 3);
    DefaultSlotAt(TRIGGER_SMART_CONTRACT, 4);
    DefaultSlotAt(TRIGGER_SMART_CONTRACT, 5);
  }

  /** The fields of a smart contract call, without their being in one list. */
  predicate TriggerFields(fields: Fields) {
    && ValidFields(fields) && |fields| == 6
    && fields[0] == Field(1, Singular, FixedBytes(21)) && fields[1] == Field(2, Singular, FixedBytes(21))
    && fields[2] == Field(3, Singular, Int(8)) && fields[3] == Field(4, Singular, Callback)
    && fields[4] == Field(5, Singular, Int(8)) && fields[5] == Field(6, Singular, Int(8))
  }

  lemma {:induction false} AmountsDecode(fields: Fields, m: Slots, tokenValue: u64, tokenId: u64)
    requires TriggerFields(fields) && |m| == 6 && m[4].One? && m[5].One?
    ensures
      DecodeFields(fields, m, NumberRecord(5, tokenValue) + (NumberRecord(6, tokenId) + [])) ==
      Some(m[4 := One(IntV(Signed64(tokenValue)))][5 := One(IntV(Signed64(tokenId)))])
  {
    var m' := m[4 := One(IntV(Signed64(tokenValue)))];
    Whole(tokenValue);
    Whole(tokenId);
    NumberLeads(fields, m, 4, tokenValue, Signed64(tokenValue), NumberRecord(6, tokenId) + []);
    NumberLeads(fields, m', 5, tokenId, Signed64(tokenId), []);
  }

  lemma {:induction false} AddressesDecode(fields: Fields, m: Slots, owner: seq<byte>, contract: seq<byte>,
                                           rest: seq<byte>)
    requires TriggerFields(fields) && |m| == 6 && m[0].One? && m[1].One? && |owner| == 21 && |contract| == 21
    ensures
      DecodeFields(fields, m, StringRecord(1, owner) + (StringRecord(2, contract) + rest)) ==
      DecodeFields(fields, m[0 := One(BytesV(owner))][1 := One(BytesV(contract))], rest)
  {
    BytesLead(fields, m, 0, owner, StringRecord(2, contract) + rest);
    BytesLead(fields, m[0 := One(BytesV(owner))], 1, contract, rest);
  }

  lemma {:induction false} CallDecodes(fields: Fields, m: Slots, callValue: u64, data: seq<byte>, rest: seq<byte>)
    requires TriggerFields(fields) && |m| == 6 && m[2].One? && m[3] == Calls([]) && |data| < TWO32
    ensures
      DecodeFields(fields, m, NumberRecord(3, callValue) + (StringRecord(4, data) + rest)) ==
      DecodeFields(fields, m[2 := One(IntV(Signed64(callValue)))][3 := Calls([Call(true, data)])], rest)
  {
    var m' := m[2 := One(IntV(Signed64(callValue)))];
    Whole(callValue);
    NumberLeads(fields, m, 2, callValue, Signed64(callValue), StringRecord(4, data) + rest);
    assert [] + [Call(true, data)] == [Call(true, data)];
    CallLeads(fields, m', 3, data, rest);
  }

  lemma {:induction false} TriggerFieldsDecode(fields: Fields, m: Slots, owner: seq<byte>, contract: seq<byte>,
                                               callValue: u64, data: seq<byte>, tokenValue: u64, tokenId: u64)
    requires TriggerFields(fields) && |m| == 6 && m[0].One? && m[1].One? && m[2].One? && m[3] == Calls([])
    requires m[4].One? && m[5].One? && |owner| == 21 && |contract| == 21 && |data| < TWO32
    ensures
      DecodeFields(fields, m, TriggerBytes(owner, contract, callValue, data, tokenValue, tokenId)) ==
      Some(TriggerSlots(owner, contract, Signed64(callValue), [Call(true, data)], Signed64(tokenValue),
                        Signed64(tokenId)))
  {
    var tokens := NumberRecord(5, tokenValue) + (NumberRecord(6, tokenId) + []);
    var m1 := m[0 := One(BytesV(owner))][1 := One(BytesV(contract))];
    var m2 := m1[2 := One(IntV(Signed64(callValue)))][3 := Calls([Call(true, data)])];
    AddressesDecode(fields, m, owner, contract, NumberRecord(3, callValue) + (StringRecord(4, data) + tokens));
    CallDecodes(fields, m1, callValue, data, tokens);
    AmountsDecode(fields, m2, tokenValue, tokenId);
    assert m2[4 := One(IntV(Signed64(tokenValue)))][5 := One(IntV(Signed64(tokenId)))] ==
           TriggerSlots(owner, contract, Signed64(callValue), [Call(true, data)], Signed64(tokenValue),
                        Signed64(tokenId));
  }

  lemma {:induction false} TriggerDecodes(owner: seq<byte>, contract: seq<byte>, callValue: u64, data: seq<byte>,
                                          tokenValue: u64, tokenId: u64)
    requires |owner| == 21 && |contract| == 21 && |data| < TWO32
    ensures
      Decode(TRIGGER_SMART_CONTRACT, TriggerBytes(owner, contract, callValue, data, tokenValue, tokenId)) ==
      Some(TriggerSlots(owner, contract, Signed64(callValue), [Call(true, data)], Signed64(tokenValue),
                        Signed64(tokenId)))
  {
    DefaultTrigger();
    TriggerFieldsDecode(TRIGGER_SMART_CONTRACT, DefaultSlots(TRIGGER_SMART_CONTRACT), owner, contract, callValue, data,
                        tokenValue, tokenId);
  }

  /** Addresses, values and token of a call are each recorded from their own field, the method from its data. */
  lemma {:induction false} TriggerRead(env: Env, owner: seq<byte>, contract: seq<byte>, callValue: u64,
                                       data: seq<byte>, tokenValue: i64, tokenId: i64)
    requires |owner| == 21 && |contract| == 21 && |data| < TWO32
    ensures
      var token := env.knownToken(contract);
      var call := TriggerData(NO_CALL, data);
      TriggerDetail(env, TriggerBytes(owner, contract, callValue, data, Unsigned64(tokenValue), Unsigned64(tokenId))) ==
      if call.None? then None
      else Some(Trigger(owner, contract, if token.None? then call.value.(trcMethod := 0) else call.value, callValue,
                        tokenValue, tokenId, token))
  {
    TriggerDecodes(owner, contract, callValue, data, Unsigned64(tokenValue), Unsigned64(tokenId));
    Whole(callValue);
    LastCallCounts(NO_CALL, [], Call(true, data));
    assert [] + [Call(true, data)] == [Call(true, data)];
  }

  // The data of a call

  /** transfer(address, uint256) and approve(address, uint256): the recipient is the end of the first argument. */
  lemma {:induction false} KnownCallRead(before: TokenCall, selector: seq<byte>, pad: seq<byte>, to: seq<byte>,
                                         value: Word32)
    requires |pad| == 12 && |to| == 20
    requires selector == [0xA9, 0x05, 0x9C, 0xBB] || selector == [0x09, 0x5E, 0xA7, 0xB3]
    ensures
      TriggerData(before, selector + (pad + (to + value))) ==
      Some(TokenCall(selector, if selector[0] == 0xA9 then 1 else 2, [0x41] + to, value))
  {
    var data := selector + (pad + (to + value));
    assert data[..4] == selector && data[16..36] == to && data[36..] == value;
  }

  /** Any other call keeps only its selector, and its arguments must be whole words; the known ones take two. */
  lemma {:induction false} OtherCallRead(before: TokenCall, selector: seq<byte>, arguments: seq<byte>)
    requires |selector| == 4
    ensures selector != [0xA9, 0x05, 0x9C, 0xBB] && selector != [0x09, 0x5E, 0xA7, 0xB3] ==>
              TriggerData(before, selector + arguments) ==
              if |arguments| % 32 == 0 then Some(TokenCall(selector, 0, before.to, before.value)) else None
    ensures selector == [0xA9, 0x05, 0x9C, 0xBB] || selector == [0x09, 0x5E, 0xA7, 0xB3] ==>
              (TriggerData(before, selector + arguments).Some? <==> |arguments| == 64)
  {
    assert (selector + arguments)[..4] == selector;
  }

  lemma {:induction false} ShortCallRefused(before: TokenCall, data: seq<byte>)
    ensures |data| < 4 ==> TriggerData(before, data) == None
  {}

  /** With several records the last one is applied to what the others left. */
  lemma {:induction false} LastCallCounts(before: TokenCall, calls: seq<Call>, last: Call)
    ensures
      TriggerCalls(before, calls + [last]) ==
      if TriggerCalls(before, calls).None? then None
      else TriggerData(TriggerCalls(before, calls).value, last.payload)
    decreases |calls|
  {
    if calls == [] {
      assert calls + [last] == [last] && [last][1..] == [];
    } else {
      assert (calls + [last])[0] == calls[0] && (calls + [last])[1..] == calls[1..] + [last];
      if TriggerData(before, calls[0].payload).Some? {
        LastCallCounts(TriggerData(before, calls[0].payload).value, calls[1..], last);
      }
    }
  }

  // Transactions

  function AnyBytes(url: seq<byte>, payload: seq<byte>): seq<byte> {
    StringRecord(1, url) + (StringRecord(2, payload) + [])
  }

  function ContractBytes(kind: nat, url: seq<byte>, payload: seq<byte>, permission: nat): seq<byte> {
    NumberRecord(1, kind) + (StringRecord(2, AnyBytes(url, payload)) + (NumberRecord(5, permission) + []))
  }

  function ContractSlots(kind: int, parameter: Option<Value>, permission: int): Slots {
    [One(IntV(kind)), Opt(parameter), Calls([]), Calls([]), One(IntV(permission))]
  }

  lemma {:induction false} DefaultAny()
    ensures ValidFields(ANY) && DefaultSlots(ANY) == [Calls([]), Calls([])]
  {
    FieldsAreValid(ANY);
    DefaultSlotAt(ANY, 0);
    DefaultSlotAt(ANY, 1);
  }

  lemma {:induction false} AnyDecodes(url: seq<byte>, payload: seq<byte>)
    requires |url| < TWO32 && |payload| < TWO32
    ensures Decode(ANY, AnyBytes(url, payload)) == Some([Calls([Call(true, url)]), Calls([Call(true, payload)])])
  {
    var m: Slots := [Calls([]), Calls([])];
    var m' := m[0 := Calls([Call(true, url)])];
    DefaultAny();
    assert [] + [Call(true, url)] == [Call(true, url)] && [] + [Call(true, payload)] == [Call(true, payload)];
    CallLeads(ANY, m, 0, url, StringRecord(2, payload) + []);
    CallLeads(ANY, m', 1, payload, []);
    assert m'[1 := Calls([Call(true, payload)])] == [Calls([Call(true, url)]), Calls([Call(true, payload)])];
  }

  lemma {:induction false} DefaultContract()
    ensures ValidFields(CONTRACT) && DefaultSlots(CONTRACT) == ContractSlots(0, None, 0)
  {
    FieldsAreValid(ANY);
    FieldsAreValid(CONTRACT);
    DefaultSlotAt(CONTRACT, 0);
    DefaultSlotAt(CONTRACT, 1);
    DefaultSlotAt(CONTRACT, 2);
    DefaultSlotAt(CONTRACT, 3);
    DefaultSlotAt(CONTRACT, 4);
  }

  predicate ContractFields(fields: Fields) {
    && ValidFields(fields) && |fields| == 5 && fields[0] == Field(1, Singular, UInt(4))
    && fields[1] == Field(2, Optional, Message(ANY)) && fields[4] == Field(5, Singular, Int(4))
  }

  /** A 32-bit number, extended to 64 bits when it is negative. */
  function Extended(i: int): int {
    if i < 0 then i + TWO64 else i
  }

  lemma {:induction false} Narrow(i: int)
    requires -TWO31 <= i < TWO31
    ensures 0 <= Extended(i) < TWO64 && Reads(Int(4), Extended(i), i)
  {
    Ranges(4);
    DivModUnique(i - Extended(i), TWO32, if i < 0 then -TWO32 else 0, 0);
  }

  lemma {:induction false} ContractFieldsDecode(fields: Fields, m: Slots, kind: u32, any: seq<byte>, sub: Slots,
                                                permission: int)
    requires ContractFields(fields) && m == ContractSlots(0, None, 0) && |any| < TWO32 && Decode(ANY, any) == Some(sub)
    requires -TWO31 <= permission < TWO31
    ensures
      DecodeFields(fields, m,
                   NumberRecord(1, kind) + (StringRecord(2, any) + (NumberRecord(5, Extended(permission)) + []))) ==
      Some(ContractSlots(kind, Some(MsgV(sub)), permission))
  {
    var last := NumberRecord(5, Extended(permission)) + [];
    var m1 := m[0 := One(IntV(kind))];
    var m2 := m1[1 := Opt(Some(MsgV(sub)))];
    Ranges(4);
    NumberLeads(fields, m, 0, kind, kind, StringRecord(2, any) + last);
    MessageLeads(fields, m1, 1, any, sub, last);
    Narrow(permission);
    NumberLeads(fields, m2, 4, Extended(permission), permission, []);
    assert m2[4 := One(IntV(permission))] == ContractSlots(kind, Some(MsgV(sub)), permission);
  }

  lemma {:induction false} ContractDecodes(kind: u32, url: seq<byte>, payload: seq<byte>, permission: int)
    requires |url| < TWO32 && |payload| < TWO32 && |AnyBytes(url, payload)| < TWO32 && -TWO31 <= permission < TWO31
    ensures
      Decode(CONTRACT, ContractBytes(kind, url, payload, Extended(permission))) ==
      Some(ContractSlots(kind, Some(MsgV([Calls([Call(true, url)]), Calls([Call(true, payload)])])), permission))
  {
    DefaultContract();
    AnyDecodes(url, payload);
    ContractFieldsDecode(CONTRACT, DefaultSlots(CONTRACT), kind, AnyBytes(url, payload),
                         [Calls([Call(true, url)]), Calls([Call(true, payload)])], permission);
  }

  lemma {:induction false} UnknownNumberLeads(fields: Fields, m: Slots, tag: nat, w: nat, rest: seq<byte>)
    requires |fields| == |m| && Unknown(fields, tag)
    ensures DecodeFields(fields, m, NumberRecord(tag, w) + rest) == DecodeFields(fields, m, rest)
  {
    UnknownNumber(fields, m, tag, w, rest);
    Regroup(Tag(tag, 0), Varint(w), rest);
  }

  lemma {:induction false} UnknownStringLeads(fields: Fields, m: Slots, tag: nat, s: seq<byte>, rest: seq<byte>)
    requires |fields| == |m| && Unknown(fields, tag) && |s| < TWO32
    ensures DecodeFields(fields, m, StringRecord(tag, s) + rest) == DecodeFields(fields, m, rest)
  {
    UnknownString(fields, m, tag, s, rest);
    Regroup(Tag(tag, 2), Delimited(s), rest);
  }

  /**
   * A transaction as a wallet spells it: the block it refers to, its expiration, a note, one contract, its
   * timestamp and its fee limit.
   */
  datatype Order = Order(
    refBlock: seq<byte>, refHash: seq<byte>, expiration: u64, note: Option<seq<byte>>, kind: u32, url: seq<byte>,
    payload: seq<byte>, permission: int, timestamp: u64, fee: u64)

  function ContractOfOrder(o: Order): seq<byte>
    requires -TWO31 <= o.permission < TWO31
  {
    ContractBytes(o.kind, o.url, o.payload, Extended(o.permission))
  }

  /** Lengths that a varint can carry, and a permission of 32 bits. */
  predicate Sendable(o: Order) {
    && |o.refBlock| < TWO32 && |o.refHash| < TWO32 && (o.note.Some? ==> |o.note.value| < TWO32)
    && |o.url| < TWO32 && |o.payload| < TWO32 && -TWO31 <= o.permission < TWO31
    && |AnyBytes(o.url, o.payload)| < TWO32 && |ContractOfOrder(o)| < TWO32
  }

  function NoteBytes(o: Order): seq<byte> {
    if o.note.Some? then StringRecord(10, o.note.value) else []
  }

  function TailBytes(o: Order): seq<byte> {
    NumberRecord(14, o.timestamp) + (NumberRecord(18, o.fee) + [])
  }

  function OrderBytes(o: Order): seq<byte>
    requires Sendable(o)
  {
    StringRecord(1, o.refBlock) + (StringRecord(4, o.refHash) + (NumberRecord(8, o.expiration) +
    (NoteBytes(o) + (StringRecord(11, ContractOfOrder(o)) + TailBytes(o)))))
  }

  predicate RawFields(fields: Fields) {
    && ValidFields(fields) && |fields| == 3 && fields[0] == Field(10, Singular, Callback)
    && fields[1] == Field(11, Repeated(1), Message(CONTRACT)) && fields[2] == Field(18, Singular, Int(8))
  }

  function Noted(o: Order): seq<Call> {
    if o.note.Some? then [Call(true, o.note.value)] else []
  }

  lemma {:induction false} TailDecodes(fields: Fields, m: Slots, o: Order)
    requires RawFields(fields) && |m| == 3 && m[2].One?
    ensures DecodeFields(fields, m, TailBytes(o)) == Some(m[2 := One(IntV(Signed64(o.fee)))])
  {
    UnknownNumberLeads(fields, m, 14, o.timestamp, NumberRecord(18, o.fee) + []);
    Whole(o.fee);
    NumberLeads(fields, m, 2, o.fee, Signed64(o.fee), []);
  }

  lemma {:induction false} NoteDecodes(fields: Fields, m: Slots, o: Order, rest: seq<byte>)
    requires RawFields(fields) && |m| == 3 && m[0] == Calls([]) && Sendable(o)
    ensures DecodeFields(fields, m, NoteBytes(o) + rest) == DecodeFields(fields, m[0 := Calls(Noted(o))], rest)
  {
    if o.note.Some? {
      assert [] + Noted(o) == Noted(o);
      CallLeads(fields, m, 0, o.note.value, rest);
    } else {
      assert [] + rest == rest && m[0 := Calls([])] == m;
    }
  }

  lemma {:induction false} HeadDecodes(fields: Fields, m: Slots, o: Order, rest: seq<byte>)
    requires RawFields(fields) && |m| == 3 && Sendable(o)
    ensures
      DecodeFields(fields, m,
                   StringRecord(1, o.refBlock) +
                     (StringRecord(4, o.refHash) + (NumberRecord(8, o.expiration) + rest))) ==
      DecodeFields(fields, m, rest)
  {
    UnknownStringLeads(fields, m, 1, o.refBlock, StringRecord(4, o.refHash) + (NumberRecord(8, o.expiration) + rest));
    UnknownStringLeads(fields, m, 4, o.refHash, NumberRecord(8, o.expiration) + rest);
    UnknownNumberLeads(fields, m, 8, o.expiration, rest);
  }

  lemma {:induction false} OrderDecodes(fields: Fields, m: Slots, o: Order, sub: Slots)
    requires RawFields(fields) && m == FeeOnly(0) && Sendable(o) && Decode(CONTRACT, ContractOfOrder(o)) == Some(sub)
    ensures DecodeFields(fields, m, OrderBytes(o)) ==
            Some([Calls(Noted(o)), Rep([MsgV(sub)]), One(IntV(Signed64(o.fee)))])
  {
    var contract := StringRecord(11, ContractOfOrder(o));
    var m1 := m[0 := Calls(Noted(o))];
    var m2 := m1[1 := Rep([MsgV(sub)])];
    HeadDecodes(fields, m, o, NoteBytes(o) + (contract + TailBytes(o)));
    NoteDecodes(fields, m, o, contract + TailBytes(o));
    MessageLeads(fields, m1, 1, ContractOfOrder(o), sub, TailBytes(o));
    TailDecodes(fields, m2, o);
    assert m2[2 := One(IntV(Signed64(o.fee)))] == [Calls(Noted(o)), Rep([MsgV(sub)]), One(IntV(Signed64(o.fee)))];
  }

  /**
   * Of a transaction the device sees the note, the type, parameter and permission of the contract and the fee limit,
   * each from its own field; the other fields are passed over.
   */
  lemma {:induction false} OrderRead(o: Order)
    requires Sendable(o)
    ensures ChunkTx(OrderBytes(o)) ==
            Some(Tx(Noted(o), [Contract(o.kind, Some([Call(true, o.payload)]), o.permission)], o.fee))
  {
    var sub := ContractSlots(o.kind, Some(MsgV([Calls([Call(true, o.url)]), Calls([Call(true, o.payload)])])),
                             o.permission);
    RawIsValid();
    DefaultRaw();
    ContractDecodes(o.kind, o.url, o.payload, o.permission);
    OrderDecodes(RAW, DefaultSlots(RAW), o, sub);
    Whole(o.fee);
    OneContractOf(MsgV(sub));
  }

  lemma {:induction false} OneContractOf(v: Value)
    ensures ContractsOf([v]) == [ContractOf(v)]
  {
    assert [v][1..] == [];
  }

  // What is recorded

  /** The contract types that are read: transfers, smart contract calls and those with a decoder of their own. */
  lemma {:induction false} KindsRead(env: Env, kind: nat, payload: seq<byte>)
    ensures kind in {2, 4, 10, 11, 12, 13, 16, 17, 18, 41, 42, 43, 44, 46, 54, 55, 56, 57, 58} ==>
              DetailOf(env, kind, payload) == if env.decodes(kind, payload) then Some(Other(payload, [])) else None
    ensures kind !in {1, 2, 4, 10, 11, 12, 13, 16, 17, 18, 31, 41, 42, 43, 44, 46, 54, 55, 56, 57, 58} ==>
              DetailOf(env, kind, payload) == None
    ensures DetailOf(env, 1, payload) == TransferDetail(payload) &&
            DetailOf(env, 31, payload) == TriggerDetail(env, payload)
  {}

  /** The content after the only chunk of a transaction, or why it is refused. */
  lemma {:induction false} OrderRecorded(env: Env, allowed: bool, o: Order)
    requires Sendable(o)
    ensures
      var noteSize := if o.note.Some? then |o.note.value| else 0;
      var detail := DetailOf(env, o.kind, o.payload);
      ProcessTx(env, allowed, EMPTY, OrderBytes(o)) ==
      if noteSize != 0 && !allowed then (DataNotAllowed, EMPTY)
      else if o.payload == [] || detail.None? then
        (Fault, TxContent(255, false, 0, noteSize, o.fee, o.fee != 0, NoDetail))
      else (Processing, TxContent(o.kind, true, o.permission, noteSize, o.fee, o.fee != 0, detail.value))
  {
    OrderRead(o);
    ShortTag1();
  }

  lemma {:induction false} ShortTag1()
    ensures |Tag(1, 2)| == 1
  {}
}
