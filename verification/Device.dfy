/** The signing globals and the functions that update them: handleSign, processTx and the review callbacks. */
module Device {
  import opened Arith
  import opened Schema
  import opened Wire
  import opened Reader
  import opened Decoder
  import opened Radix
  import opened Decimal
  import opened Amount
  import opened Transaction
  import opened Chunks
  import opened Swap
  import opened Session

  // Parsing

  method DecodeBuffer(fields: Fields, data: seq<byte>) returns (m: Option<Slots>)
    requires ValidFields(fields)
    ensures m == Decode(fields, data)
  {
    var stream := new IStream(data, 0, |data|);
    assert stream.Rest() == data;
    var ok, slots := DecodeMessage(stream, fields);
    m := if ok then Some(slots) else None;
  }

  method TransferContract(payload: seq<byte>) returns (detail: Option<Detail>)
    ensures detail == TransferDetail(payload)
  {
    FieldsAreValid(TRANSFER_CONTRACT);
    var m := DecodeBuffer(TRANSFER_CONTRACT, payload);
    if m.None? {
      return None;
    }
    return Some(Transfer(BytesOf(m.value[0]), BytesOf(m.value[1]), Cast64(IntOf(m.value[2]))));
  }

  /** The data callback, run for each record in turn. */
  method TriggerCallbacks(calls: seq<Call>) returns (call: Option<TokenCall>)
    ensures call == TriggerCalls(NO_CALL, calls)
  {
    var current := NO_CALL;
    for i := 0 to |calls|
      invariant TriggerCalls(NO_CALL, calls) == TriggerCalls(current, calls[i..])
    {
      var next := TriggerData(current, calls[i].payload);
      assert calls[i..][1..] == calls[i + 1..];
      if next.None? {
        return None;
      }
      current := next.value;
    }
    return Some(current);
  }

  method TriggerSmartContract(env: Env, payload: seq<byte>) returns (detail: Option<Detail>)
    ensures detail == TriggerDetail(env, payload)
  {
    FieldsAreValid(TRIGGER_SMART_CONTRACT);
    var m := DecodeBuffer(TRIGGER_SMART_CONTRACT, payload);
    if m.None? {
      return None;
    }
    var call := TriggerCallbacks(CallsOf(m.value[3]));
    if call.None? {
      return None;
    }
    var token := env.knownToken(BytesOf(m.value[1]));
    return Some(Trigger(BytesOf(m.value[0]), BytesOf(m.value[1]),
                        if token.None? then call.value.(trcMethod := 0) else call.value,
                        Cast64(IntOf(m.value[2])), IntOf(m.value[4]), IntOf(m.value[5]), token));
  }

  method DecodeContract(env: Env, kind: nat, payload: seq<byte>) returns (detail: Option<Detail>)
    ensures detail == DetailOf(env, kind, payload)
  {
    if kind == TRANSFERCONTRACT {
      detail := TransferContract(payload);
    } else if kind == TRIGGERSMARTCONTRACT {
      detail := TriggerSmartContract(env, payload);
    } else if KnownType(kind) && env.decodes(kind, payload) {
      detail := Some(Other(payload, []));
    } else {
      detail := None;
    }
  }

  /** print_amount into a buffer of its own. */
  method PrintLine(amount: u64, size: nat, sun: nat) returns (p: Printed)
    requires size >= 1
    ensures p == PrintSpec(amount, size, sun)
  {
    var line := new char[size](_ => '\0');
    var thrown, _ := PrintAmount(amount, line, size, sun);
    if thrown {
      return Thrown;
    }
    ghost var text := PrintSpec(amount, size, sun).text;
    PlainDigitsClean(amount);
    AdjustedClean(PlainDigits(amount), sun);
    var shown := ReadString(line, text);
    return Text(shown);
  }

  /** The amount of a TRC20 call: converted, printed and adjusted in buffers of its own. */
  method TokenLine(argument: Word32, decimals: nat) returns (text: Option<string>)
    ensures
      var digits := Numeral(BigEndian(argument), 10);
      text == if Room(digits, decimals) > LINE then None else Some(Adjusted(digits, decimals))
  {
    var v := BigEndian(argument);
    BigEndianBound(argument);
    RoomFor(v, decimals);
    var line := new char[LINE](_ => '\0');
    var ok, shown := TokenAmountLine(argument, decimals, line);
    if !ok {
      return None;
    }
    NumeralCanonical(v, 10);
    NoPoint(Numeral(v, 10));
    AdjustedClean(Numeral(v, 10), decimals);
    var read := ReadString(line, shown);
    return Some(read);
  }

  method ReadIndices(data: seq<byte>, n: nat) returns (indices: seq<nat>)
    requires |data| >= 4 * n
    ensures indices == Indices(data, n)
  {
    indices := [];
    for i := 0 to n
      invariant indices == Indices(data, i)
    {
      indices := indices + [BigEndian(data[4 * i..4 * i + 4])];
    }
  }

  // The session

  class Signer {
    const env: Env
    const mode: Mode

    var initialized: bool
    var hashed: seq<byte>
    var content: TxContent
    var path: seq<nat>
    var hash: seq<byte>
    var swapReady: bool
    var pending: bool
    var ended: bool

    function Abs(): State
      reads this
    {
      State(initialized, hashed, content, path, hash, swapReady, pending, ended)
    }

    constructor (env: Env, mode: Mode)
      ensures Abs() == BOOT && this.env == env && this.mode == mode
    {
      this.env, this.mode := env, mode;
      initialized, hashed, content, path, hash := false, [], EMPTY.(contractType := 0), [], [];
      swapReady, pending, ended := false, false, false;
    }

    method InitTx()
      modifies this
      ensures Abs() == Init(old(Abs()))
    {
      initialized, hashed, content := true, [], EMPTY;
    }

    method TerminateSession()
      modifies this
      ensures Abs() == Terminate(old(Abs()))
    {
      initialized, hashed, content, pending := false, [], EMPTY, false;
    }

    /** read_bip32_path: the indices are stored before the prefix is tested. */
    method ReadBip32Path(data: seq<byte>) returns (taken: Option<nat>)
      modifies this`path
      ensures (taken, path) == ReadPath(data, old(path))
    {
      if |data| < 1 || data[0] < 1 || data[0] > MAX_BIP32_PATH || |data| < 1 + 4 * data[0] {
        return None;
      }
      var n: nat := data[0];
      path := ReadIndices(data[1..], n);
      if n < 2 || path[0] != PREFIX[0] || path[1] != PREFIX[1] {
        return None;
      }
      return Some(1 + 4 * n);
    }

    /** processTx: fills the content while it goes; a caller that gets neither Processing nor Finished starts over. */
    method ProcessBuffer(chunk: seq<byte>, dataAllowed: bool) returns (status: Status)
      modifies this`content
      ensures status == ProcessTx(env, dataAllowed, old(content), chunk).0
      ensures status.Processing? || status.Finished? ==> content == ProcessTx(env, dataAllowed, old(content), chunk).1
    {
      if |chunk| == 0 {
        return Finished;
      }
      RawIsValid();
      var m := DecodeBuffer(RAW, chunk);
      if m.None? {
        return Fault;
      }
      status := ProcessFields(TxOf(m.value), dataAllowed);
    }

    method ProcessFields(tx: Tx, dataAllowed: bool) returns (status: Status)
      modifies this`content
      ensures status == ProcessDecoded(env, dataAllowed, old(content), tx).0
      ensures status.Processing? ==> content == ProcessDecoded(env, dataAllowed, old(content), tx).1
    {
      var parameter := Parameter(tx);
      content := content.(dataBytes := DataBytes(tx.data, content.dataBytes));
      if parameter.Some? && |parameter.value| > 1 {
        return Fault;
      }
      if tx.fee != 0 {
        if content.feeLimitSeen && content.feeLimit != tx.fee {
          return Fault;
        }
        content := content.(feeLimit := tx.fee, feeLimitSeen := true);
      }
      if !dataAllowed && content.dataBytes != 0 {
        return DataNotAllowed;
      }
      if parameter.None? {
        return Processing;
      }
      status := ProcessParameter(tx.contracts[0], parameter.value);
    }

    method ProcessParameter(contract: Contract, calls: seq<Call>) returns (status: Status)
      modifies this`content
      ensures status == ProcessContract(env, old(content), contract, calls).0
      ensures status.Processing? ==> content == ProcessContract(env, old(content), contract, calls).1
    {
      if content.contractSeen {
        return Fault;
      }
      content := content.(contractSeen := true);
      if Captured(calls).None? {
        return Fault;
      }
      content := content.(permissionId := contract.permissionId, contractType := contract.kind);
      var detail := DecodeContract(env, contract.kind, Captured(calls).value);
      if detail.None? {
        return Fault;
      }
      content := content.(detail := detail.value);
      return Processing;
    }

    /** ui_callback_tx_ok: signs the completed hash and closes the session. */
    method Accept() returns (r: Reply)
      modifies this
      ensures (Abs(), r) == Release(env, old(Abs()))
    {
      var signature := env.sign(path, hash);
      r := if signature.None? then Sw(E_SECURITY_STATUS_NOT_SATISFIED) else Signature(signature.value);
      TerminateSession();
    }

    /** ui_callback_tx_cancel. */
    method Cancel() returns (r: Reply)
      modifies this
      ensures (Abs(), r) == Refuse(old(Abs()), E_CONDITIONS_OF_USE_NOT_SATISFIED)
    {
      TerminateSession();
      return Sw(E_CONDITIONS_OF_USE_NOT_SATISFIED);
    }

    method Display(amount: string, tokenName: string, action: string, to: string) returns (r: Reply)
      modifies this
      ensures (Abs(), r) == Show(env, mode, old(Abs()), amount, tokenName, action, to)
    {
      match mode
      case Standalone =>
        pending := true;
        return Review(AmountLines(amount, tokenName, action, to));
      case InSwap(validated, printable) =>
        if content.feeLimit > MAX_SWAP_FEE_LIMIT {
          TerminateSession();
          return Sw(E_SWAP_CHECKING_FAIL);
        }
        var valid := CheckValidity(validated, printable, amount, tokenName, action, to);
        if valid {
          r := Accept();
        } else {
          TerminateSession();
          return Sw(E_SWAP_CHECKING_FAIL);
        }
    }

    method DisplayTransfer() returns (r: Reply)
      requires content.detail.Transfer?
      modifies this
      ensures (Abs(), r) == ShowTransfer(env, mode, old(Abs()))
    {
      var line := PrintLine(content.detail.amount, LINE, SUN_DIG);
      if line.Thrown? {
        ended := true;
        return Silent;
      }
      r := Display(line.text, "TRX", "To", env.base58(content.detail.to));
    }

    method DisplayToken() returns (r: Reply)
      requires content.detail.Trigger? && content.detail.token.Some?
      modifies this
      ensures (Abs(), r) == ShowToken(env, mode, old(Abs()))
    {
      var d := content.detail;
      if d.callValue != 0 || d.callTokenValue != 0 {
        TerminateSession();
        return Sw(E_INCORRECT_DATA);
      }
      var amount := TokenLine(d.call.value, d.token.value.decimals);
      if amount.None? {
        TerminateSession();
        return Sw(E_INCORRECT_LENGTH);
      }
      var fee := PrintLine(content.feeLimit, MAX_FEE_SIZE, SUN_DIG);
      if fee.Thrown? {
        ended := true;
        return Silent;
      }
      r := Display(amount.value, d.token.value.ticker,
                   if d.call.trcMethod == 1 then "To" else "Allow", env.base58(d.call.to));
    }

    method DisplayCustom(settings: Settings) returns (r: Reply)
      requires content.detail.Trigger?
      modifies this
      ensures (Abs(), r) == ShowCustom(settings, old(Abs()))
    {
      var d := content.detail;
      if !settings.customContract {
        TerminateSession();
        return Sw(E_MISSING_SETTING_CUSTOM_CONTRACT);
      }
      if d.callValue != 0 && d.callTokenValue != 0 {
        TerminateSession();
        return Sw(E_INCORRECT_DATA);
      }
      var line: Printed := Text("0");
      if d.callValue != 0 {
        line := PrintLine(d.callValue, LINE, SUN_DIG);
      } else if d.callTokenValue != 0 {
        line := PrintLine(Cast64(d.callTokenValue), LINE, 0);
      }
      var fee := PrintLine(content.feeLimit, MAX_FEE_SIZE, SUN_DIG);
      if line.Thrown? || fee.Thrown? {
        ended := true;
        return Silent;
      }
      pending := true;
      return Review(OtherDisplay);
    }

    method DisplayOther(settings: Settings) returns (r: Reply)
      requires !(content.contractType == TRANSFERCONTRACT && content.detail.Transfer?)
      requires !(content.contractType == TRIGGERSMARTCONTRACT && content.detail.Trigger?)
      modifies this
      ensures (Abs(), r) == ShowContract(env, mode, settings, old(Abs()))
    {
      if content.contractType == INVALID_CONTRACT {
        TerminateSession();
        return Sw(E_INCORRECT_DATA);
      }
      if HashOnly(content.contractType) {
        if !settings.signByHash {
          TerminateSession();
          return Sw(E_MISSING_SETTING_SIGN_BY_HASH);
        }
        pending := true;
        return Review(OtherDisplay);
      }
      match env.screen(content.contractType, content.detail)
      case Shown =>
        pending := true;
        return Review(OtherDisplay);
      case Refused =>
        TerminateSession();
        return Sw(E_INCORRECT_DATA);
      case Crashed =>
        ended := true;
        return Silent;
    }

    /** The part of handleSign behind the last chunk. */
    method Complete(settings: Settings) returns (r: Reply)
      modifies this
      ensures (Abs(), r) == Finalize(env, mode, settings, old(Abs()))
    {
      hash := env.sha256(hashed);
      if !settings.dataAllowed && content.dataBytes != 0 {
        TerminateSession();
        return Sw(E_MISSING_SETTING_DATA_ALLOWED);
      }
      if content.permissionId < 0 || content.permissionId > 9 {
        TerminateSession();
        return Sw(E_INCORRECT_DATA);
      }
      if mode.InSwap? && !SwapKind(content) {
        TerminateSession();
        return Sw(E_SWAP_CHECKING_FAIL);
      }
      if content.contractType == TRANSFERCONTRACT && content.detail.Transfer? {
        r := DisplayTransfer();
      } else if content.contractType == TRIGGERSMARTCONTRACT && content.detail.Trigger? {
        if content.detail.call.trcMethod != 0 && content.detail.token.Some? {
          r := DisplayToken();
        } else {
          r := DisplayCustom(settings);
        }
      } else {
        r := DisplayOther(settings);
      }
    }

    /** The part of handleSign from the hash update on. */
    method HandlePayload(p1: nat, chunk: seq<byte>, settings: Settings) returns (r: Reply)
      modifies this
      ensures (Abs(), r) == Process(env, mode, settings, old(Abs()), p1, chunk)
    {
      if !initialized {
        return Sw(E_INCORRECT_P1_P2);
      }
      hashed := hashed + chunk;
      if mode.InSwap? {
        if swapReady {
          ended := true;
          return Silent;
        }
        swapReady := true;
      }
      var status := ProcessBuffer(chunk, settings.dataAllowed);
      match status
      case Fault =>
        InitTx();
        return Sw(E_INCORRECT_DATA);
      case DataNotAllowed =>
        InitTx();
        return Sw(if mode.InSwap? then E_SWAP_CHECKING_FAIL else E_MISSING_SETTING_DATA_ALLOWED);
      case Finished => r := Complete(settings);
      case Processing =>
        if p1 == P1_LAST || p1 == P1_SIGN {
          r := Complete(settings);
        } else {
          return Sw(E_OK);
        }
    }

    method HandleTokenName(p1: nat, data: seq<byte>, settings: Settings) returns (r: Reply)
      modifies this
      ensures (Abs(), r) == NameToken(env, mode, settings, old(Abs()), p1, data)
    {
      var t, last := content.contractType, p1 / 8 % 2 == 1;
      if t == TRANSFERASSETCONTRACT || t == 41 {
        if p1 % 8 > 1 {
          return Sw(E_INCORRECT_P1_P2);
        }
      } else if t == 42 || t == 43 || t == 44 {
        if p1 % 8 > 0 || !last {
          return Sw(E_INCORRECT_P1_P2);
        }
      } else {
        return Sw(E_INCORRECT_DATA);
      }
      var named := env.tokenName(t, content.detail, p1 % 8, data);
      if content.detail.Other? {
        content := content.(detail := content.detail.(names := named.names));
      }
      if !named.ok {
        return Sw(E_INCORRECT_DATA);
      }
      if !last {
        return Sw(E_OK);
      }
      r := HandlePayload(p1, [], settings);
    }

    /** handleSign. */
    method HandleCommand(p1: nat, p2: nat, data: seq<byte>, settings: Settings) returns (r: Reply)
      modifies this
      ensures (Abs(), r) == HandleSign(env, mode, old(Abs()), p1, p2, data, settings)
    {
      if p2 != 0 {
        return Sw(E_INCORRECT_P1_P2);
      }
      if Opens(p1) {
        var taken := ReadBip32Path(data);
        if taken.None? {
          return Sw(E_INCORRECT_BIP32_PATH);
        }
        InitTx();
        r := HandlePayload(p1, data[taken.value..], settings);
      } else if NamesToken(p1) {
        r := HandleTokenName(p1, data, settings);
      } else if p1 != P1_MORE && p1 != P1_LAST {
        return Sw(E_INCORRECT_P1_P2);
      } else {
        r := HandlePayload(p1, data, settings);
      }
    }

    /** One event of a run. */
    method Handle(e: Event) returns (r: Reply)
      modifies this
      ensures (Abs(), r) == Step(env, mode, old(Abs()), e)
    {
      if ended || (e.Apdu? && pending) || (!e.Apdu? && !pending) {
        return Silent;
      }
      match e
      case Apdu(p1, p2, data, settings) => r := HandleCommand(p1, p2, data, settings);
      case Confirm => r := Accept();
      case Reject => r := Cancel();
    }
  }
}
