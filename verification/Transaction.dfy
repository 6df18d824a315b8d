/** Parsing a transaction chunk by chunk: processTx and the contract decoders of src/parse.c. */
module Transaction {
  import opened Arith
  import opened Schema
  import opened Wire

  // Message types of proto/core/Tron.pb.h and proto/core/Contract.pb.h

  const ANY: Fields := [Field(1, Singular, Callback), Field(2, Singular, Callback)]

  const CONTRACT: Fields :=
    [Field(1, Singular, UInt(4)), Field(2, Optional, Message(ANY)), Field(3, Singular, Callback),
     Field(4, Singular, Callback), Field(5, Singular, Int(4))]

  const RAW: Fields :=
    [Field(10, Singular, Callback), Field(11, Repeated(1), Message(CONTRACT)), Field(18, Singular, Int(8))]

  const TRANSFER_CONTRACT: Fields :=
    [Field(1, Singular, FixedBytes(21)), Field(2, Singular, FixedBytes(21)), Field(3, Singular, Int(8))]

  const TRIGGER_SMART_CONTRACT: Fields :=
    [Field(1, Singular, FixedBytes(21)), Field(2, Singular, FixedBytes(21)), Field(3, Singular, Int(8)),
     Field(4, Singular, Callback), Field(5, Singular, Int(8)), Field(6, Singular, Int(8))]

  // Contract types

  const TRANSFERCONTRACT: nat := 1
  const TRANSFERASSETCONTRACT: nat := 2
  const TRIGGERSMARTCONTRACT: nat := 31
  const INVALID_CONTRACT: nat := 255

  /** The types that processTx decodes. */
  predicate KnownType(t: nat) {
    t in {1, 2, 4, 10, 11, 12, 13, 16, 17, 18, 31, 41, 42, 43, 44, 46, 54, 55, 56, 57, 58}
  }

  // Reading decoded messages

  function CallsOf(s: Slot): seq<Call> {
    if s.Calls? then s.calls else []
  }

  function IntOf(s: Slot): int {
    if s.One? && s.v.IntV? then s.v.i else 0
  }

  function BytesOf(s: Slot): seq<byte> {
    if s.One? && s.v.BytesV? then s.v.bytes else []
  }

  /** Assignment of a signed number to a uint64_t. */
  function Cast64(i: int): u64 {
    i % TWO64
  }

  /** One Contract message: its type, the calls on parameter.value if there is a parameter, and the permission. */
  datatype Contract = Contract(kind: nat, parameter: Option<seq<Call>>, permissionId: int)

  /** The fields of Transaction_raw that the device looks at. */
  datatype Tx = Tx(data: seq<Call>, contracts: seq<Contract>, fee: u64)

  function ParameterOf(s: Slot): Option<seq<Call>> {
    if s.Opt? && s.o.Some? && s.o.value.MsgV? && |s.o.value.slots| == |ANY| then Some(CallsOf(s.o.value.slots[1]))
    else None
  }

  function ContractOf(v: Value): Contract {
    if v.MsgV? && |v.slots| == |CONTRACT| then
      Contract(if IntOf(v.slots[0]) < 0 then 0 else IntOf(v.slots[0]), ParameterOf(v.slots[1]), IntOf(v.slots[4]))
    else Contract(0, None, 0)
  }

  function ContractsOf(vs: seq<Value>): (cs: seq<Contract>)
    ensures |cs| == |vs|
  {
    if vs == [] then [] else [ContractOf(vs[0])] + ContractsOf(vs[1..])
  }

  function TxOf(m: Slots): Tx
    requires |m| == |RAW|
  {
    Tx(CallsOf(m[0]), ContractsOf(if m[1].Rep? then m[1].vs else []), Cast64(IntOf(m[2])))
  }

  /** What a chunk decodes to, on its own. */
  function ChunkTx(chunk: seq<byte>): Option<Tx> {
    match Decode(RAW, chunk)
    case None => None
    case Some(m) => Some(TxOf(m))
  }

  /** The calls on the parameter of the first contract, which is the one that processTx looks at. */
  function Parameter(tx: Tx): Option<seq<Call>> {
    if tx.contracts == [] then None else tx.contracts[0].parameter
  }

  // Contract details

  datatype Token = Token(decimals: nat, ticker: string)

  /**
   * What lies outside the model: hashing, signing, address encoding, the token table, the decoders and
   * screens of the other contract types, and the signed token names.
   */
  datatype Env = Env(
    sha256: seq<byte> -> seq<byte>,
    sign: (seq<nat>, seq<byte>) -> Option<seq<byte>>,
    base58: seq<byte> -> string,
    knownToken: seq<byte> -> Option<Token>,
    decodes: (nat, seq<byte>) -> bool,
    tokenName: (nat, Detail, nat, seq<byte>) -> Named,
    screen: (nat, Detail) -> Screen)

  /** Outcome of preparing the review of a contract type that is not modelled in detail. */
  datatype Screen = Shown | Refused | Crashed

  /** Outcome of reading a signed token name: whether it was accepted, and the names afterwards. */
  datatype Named = Named(ok: bool, names: seq<string>)

  datatype Detail =
    | NoDetail
    | Transfer(owner: seq<byte>, to: seq<byte>, amount: u64)
    | Trigger(owner: seq<byte>, contractAddress: seq<byte>, call: TokenCall, callValue: u64,
              callTokenValue: int, callTokenId: int, token: Option<Token>)
    | Other(payload: seq<byte>, names: seq<string>)

  /** One encoded value of a smart contract call. */
  type Word32 = s: seq<byte> | |s| == 32 witness seq(32, _ => 0)

  /** The effect of the callback on the data of a smart contract call. */
  datatype TokenCall = TokenCall(selector: seq<byte>, trcMethod: nat, to: seq<byte>, value: Word32)

  const NO_CALL: TokenCall := TokenCall([], 0, ZeroBytes(21), ZeroBytes(32))
  const TRANSFER_SELECTOR: seq<byte> := [0xA9, 0x05, 0x9C, 0xBB]
  const APPROVE_SELECTOR: seq<byte> := [0x09, 0x5E, 0xA7, 0xB3]

  /** pb_decode_trigger_smart_contract_data. */
  function TriggerData(before: TokenCall, data: seq<byte>): Option<TokenCall> {
    if |data| < 4 then None
    else
      var selector := data[..4];
      var trcMethod := if selector == TRANSFER_SELECTOR then 1 else if selector == APPROVE_SELECTOR then 2 else 0;
      if trcMethod == 0 then
        if (|data| - 4) % 32 != 0 then None else Some(before.(selector := selector, trcMethod := 0))
      else if |data| != 4 + 64 then None
      else Some(TokenCall(selector, trcMethod, [0x41] + data[4 + 12..4 + 32], data[4 + 32..]))
  }

  function TriggerCalls(before: TokenCall, calls: seq<Call>): Option<TokenCall>
    decreases |calls|
  {
    if calls == [] then Some(before)
    else
      match TriggerData(before, calls[0].payload)
      case None => None
      case Some(call) => TriggerCalls(call, calls[1..])
  }

  function TransferDetail(payload: seq<byte>): Option<Detail> {
    match Decode(TRANSFER_CONTRACT, payload)
    case None => None
    case Some(m) => Some(Transfer(BytesOf(m[0]), BytesOf(m[1]), Cast64(IntOf(m[2]))))
  }

  /** A token that is not in the table is an arbitrary contract. */
  function TriggerDetail(env: Env, payload: seq<byte>): Option<Detail> {
    match Decode(TRIGGER_SMART_CONTRACT, payload)
    case None => None
    case Some(m) =>
      match TriggerCalls(NO_CALL, CallsOf(m[3]))
      case None => None
      case Some(call) =>
        var token := env.knownToken(BytesOf(m[1]));
        Some(Trigger(BytesOf(m[0]), BytesOf(m[1]), if token.None? then call.(trcMethod := 0) else call,
                     Cast64(IntOf(m[2])), IntOf(m[4]), IntOf(m[5]), token))
  }

  function DetailOf(env: Env, kind: nat, payload: seq<byte>): Option<Detail> {
    if kind == TRANSFERCONTRACT then TransferDetail(payload)
    else if kind == TRIGGERSMARTCONTRACT then TriggerDetail(env, payload)
    else if KnownType(kind) && env.decodes(kind, payload) then Some(Other(payload, []))
    else None
  }

  // processTx

  datatype TxContent = TxContent(
    contractType: nat,
    contractSeen: bool,
    permissionId: int,
    dataBytes: nat,
    feeLimit: u64,
    feeLimitSeen: bool,
    detail: Detail)

  /** The content that initTx and terminate_signing_session leave. */
  const EMPTY: TxContent := TxContent(INVALID_CONTRACT, false, 0, 0, 0, false, NoDetail)

  datatype Status = Processing | Finished | Fault | DataNotAllowed

  /** The size of the last custom data record, or what was known before. */
  function DataBytes(data: seq<Call>, before: nat): nat {
    if data == [] then before else |data[|data| - 1].payload|
  }

  /** The parameter callback refuses a second capture, and what it captured must lie in the buffer and not be empty. */
  function Captured(calls: seq<Call>): Option<seq<byte>> {
    if |calls| == 1 && calls[0].inBuffer && calls[0].payload != [] then Some(calls[0].payload) else None
  }

  function WithFee(content: TxContent, fee: u64): TxContent {
    if fee != 0 then content.(feeLimit := fee, feeLimitSeen := true) else content
  }

  function ProcessContract(env: Env, content: TxContent, contract: Contract, calls: seq<Call>): (Status, TxContent) {
    if content.contractSeen || Captured(calls).None? then (Fault, content)
    else
      match DetailOf(env, contract.kind, Captured(calls).value)
      case None => (Fault, content)
      case Some(detail) =>
        (Processing,
         content.(contractSeen := true, permissionId := contract.permissionId, contractType := contract.kind,
                  detail := detail))
  }

  function ProcessDecoded(env: Env, dataAllowed: bool, content: TxContent, tx: Tx): (Status, TxContent) {
    var parameter := Parameter(tx);
    if parameter.Some? && |parameter.value| > 1 then (Fault, content)
    else if tx.fee != 0 && content.feeLimitSeen && content.feeLimit != tx.fee then (Fault, content)
    else
      var next := WithFee(content, tx.fee).(dataBytes := DataBytes(tx.data, content.dataBytes));
      if !dataAllowed && next.dataBytes != 0 then (DataNotAllowed, content)
      else if parameter.None? then (Processing, next)
      else ProcessContract(env, next, tx.contracts[0], parameter.value)
  }

  /** The content only matters after Processing and Finished: every other status makes the caller start over. */
  function ProcessTx(env: Env, dataAllowed: bool, content: TxContent, chunk: seq<byte>): (Status, TxContent) {
    if chunk == [] then (Finished, content)
    else
      match ChunkTx(chunk)
      case None => (Fault, content)
      case Some(tx) => ProcessDecoded(env, dataAllowed, content, tx)
  }

  predicate Accepted(env: Env, dataAllowed: bool, content: TxContent, chunk: seq<byte>) {
    ProcessTx(env, dataAllowed, content, chunk).0.Processing?
  }
}
