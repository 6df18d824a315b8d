/**
 * The INS_SIGN session as a state machine over commands and user decisions (src/handlers/sign.c,
 * src/ui/ui_globals.c).
 */
module Session {
  import opened Arith
  import opened Schema
  import opened Radix
  import opened Decimal
  import opened Amount
  import opened Transaction
  import opened Swap

  // Status words

  const E_OK: nat := 0x9000
  const E_INCORRECT_LENGTH: nat := 0x6700
  const E_SECURITY_STATUS_NOT_SATISFIED: nat := 0x6982
  const E_CONDITIONS_OF_USE_NOT_SATISFIED: nat := 0x6985
  const E_INCORRECT_DATA: nat := 0x6A80
  const E_INCORRECT_BIP32_PATH: nat := 0x6A8A
  const E_MISSING_SETTING_DATA_ALLOWED: nat := 0x6A8B
  const E_MISSING_SETTING_SIGN_BY_HASH: nat := 0x6A8C
  const E_MISSING_SETTING_CUSTOM_CONTRACT: nat := 0x6A8D
  const E_SWAP_CHECKING_FAIL: nat := 0x6A8E
  const E_INCORRECT_P1_P2: nat := 0x6B00

  const P1_FIRST: nat := 0x00
  const P1_SIGN: nat := 0x10
  const P1_MORE: nat := 0x80
  const P1_LAST: nat := 0x90

  /** (p1 & 0xF0) == P1_TRC10_NAME */
  predicate NamesToken(p1: nat) {
    p1 / 16 == 0xA
  }

  predicate Opens(p1: nat) {
    p1 == P1_FIRST || p1 == P1_SIGN
  }

  // Events and replies

  datatype Settings = Settings(dataAllowed: bool, customContract: bool, signByHash: bool)

  /** A command, with the settings in force when it is handled, or a decision about the review on the screen. */
  datatype Event = Apdu(p1: nat, p2: nat, data: seq<byte>, settings: Settings) | Confirm | Reject

  /** The lines of a transfer or a known token's call on the screen; other screens are not modelled. */
  datatype Display = AmountLines(amount: string, token: string, action: string, to: string) | OtherDisplay

  /** A status word, a review in place of an immediate reply, a signature, or nothing. */
  datatype Reply = Sw(sw: nat) | Review(display: Display) | Signature(bytes: seq<byte>) | Silent

  /** Swap mode and the size of its printable amount buffer are fixed when the application starts. */
  datatype Mode = Standalone | InSwap(validated: Validated, printable: size)

  datatype State = State(
    initialized: bool,
    hashed: seq<byte>,
    content: TxContent,
    path: seq<nat>,
    hash: seq<byte>,
    swapReady: bool,
    pending: bool,
    ended: bool)

  /** Zeroed globals. */
  const BOOT: State := State(false, [], EMPTY.(contractType := 0), [], [], false, false, false)

  /** initTx: a session with nothing hashed yet. */
  function Init(st: State): State {
    st.(initialized := true, hashed := [], content := EMPTY)
  }

  /** terminate_signing_session. */
  function Terminate(st: State): State {
    st.(initialized := false, hashed := [], content := EMPTY, pending := false)
  }

  function Refuse(st: State, sw: nat): (State, Reply) {
    (Terminate(st), Sw(sw))
  }

  // Paths

  const MAX_BIP32_PATH: nat := 10
  const PREFIX: seq<nat> := [0x8000_002C, 0x8000_00C3]

  function Indices(data: seq<byte>, n: nat): (path: seq<nat>)
    requires |data| >= 4 * n
    ensures |path| == n
  {
    if n == 0 then [] else Indices(data, n - 1) + [BigEndian(data[4 * n - 4..4 * n])]
  }

  /** read_bip32_path: the bytes it takes, or None, and the path it leaves behind in either case. */
  function ReadPath(data: seq<byte>, path: seq<nat>): (r: (Option<nat>, seq<nat>))
    ensures r.0.Some? ==> 9 <= r.0.value == 1 + 4 * |r.1| <= |data| && PREFIX <= r.1
    ensures r.0.Some? ==> |r.1| == data[0]
  {
    if |data| < 1 || data[0] < 1 || data[0] > MAX_BIP32_PATH || |data| < 1 + 4 * data[0] then (None, path)
    else
      var read := Indices(data[1..], data[0]);
      if data[0] < 2 || read[0] != PREFIX[0] || read[1] != PREFIX[1] then (None, read)
      else (Some(1 + 4 * data[0]), read)
  }

  /** Where a path is read to matters to none but the refused ones. */
  lemma {:induction false} ReadPathAnywhere(data: seq<byte>, path: seq<nat>)
    ensures ReadPath(data, path).0 == ReadPath(data, []).0
    ensures ReadPath(data, path).0.Some? ==> ReadPath(data, path) == ReadPath(data, [])
  {}

  // Signing

  /** ui_callback_tx_ok. */
  function Release(env: Env, st: State): (State, Reply) {
    (Terminate(st),
     match env.sign(st.path, st.hash)
     case None => Sw(E_SECURITY_STATUS_NOT_SATISFIED)
     case Some(bytes) => Signature(bytes))
  }

  /** In swap mode the checks stand in for the review. */
  function Show(env: Env, mode: Mode, st: State, amount: string, tokenName: string, action: string, to: string)
    : (State, Reply)
  {
    match mode
    case Standalone => (st.(pending := true), Review(AmountLines(amount, tokenName, action, to)))
    case InSwap(validated, printable) =>
      if st.content.feeLimit > MAX_SWAP_FEE_LIMIT then Refuse(st, E_SWAP_CHECKING_FAIL)
      else if Swap.Valid(validated, printable, amount, tokenName, action, to) then Release(env, st)
      else Refuse(st, E_SWAP_CHECKING_FAIL)
  }

  function Crash(st: State): (State, Reply) {
    (st.(ended := true), Silent)
  }

  const MAX_FEE_SIZE: nat := 50

  function ShowTransfer(env: Env, mode: Mode, st: State): (State, Reply)
    requires st.content.detail.Transfer?
  {
    match PrintSpec(st.content.detail.amount, LINE, SUN_DIG)
    case Thrown => Crash(st)
    case Text(amount) => Show(env, mode, st, amount, "TRX", "To", env.base58(st.content.detail.to))
  }

  /** A transfer or an approval of a known token. */
  function ShowToken(env: Env, mode: Mode, st: State): (State, Reply)
    requires st.content.detail.Trigger? && st.content.detail.token.Some?
  {
    var d := st.content.detail;
    var digits := Numeral(BigEndian(d.call.value), 10);
    if d.callValue != 0 || d.callTokenValue != 0 then Refuse(st, E_INCORRECT_DATA)
    else if Room(digits, d.token.value.decimals) > LINE then Refuse(st, E_INCORRECT_LENGTH)
    else if PrintSpec(st.content.feeLimit, MAX_FEE_SIZE, SUN_DIG).Thrown? then Crash(st)
    else
      Show(env, mode, st, Adjusted(digits, d.token.value.decimals), d.token.value.ticker,
           if d.call.trcMethod == 1 then "To" else "Allow", env.base58(d.call.to))
  }

  /** Any other smart contract call, which must be allowed in the settings. */
  function ShowCustom(settings: Settings, st: State): (State, Reply)
    requires st.content.detail.Trigger?
  {
    var d := st.content.detail;
    if !settings.customContract then Refuse(st, E_MISSING_SETTING_CUSTOM_CONTRACT)
    else if d.callValue != 0 && d.callTokenValue != 0 then Refuse(st, E_INCORRECT_DATA)
    else if d.callValue != 0 && PrintSpec(d.callValue, LINE, SUN_DIG).Thrown? then Crash(st)
    else if d.callTokenValue != 0 && PrintSpec(Cast64(d.callTokenValue), LINE, 0).Thrown? then Crash(st)
    else if PrintSpec(st.content.feeLimit, MAX_FEE_SIZE, SUN_DIG).Thrown? then Crash(st)
    else (st.(pending := true), Review(OtherDisplay))
  }

  /** Types that are signed by hash: account update and proposals. */
  predicate HashOnly(t: nat) {
    t == 10 || t == 16 || t == 17 || t == 18
  }

  /** The switch over contract types at the end of handleSign. */
  function ShowContract(env: Env, mode: Mode, settings: Settings, st: State): (State, Reply) {
    var t, d := st.content.contractType, st.content.detail;
    if t == TRANSFERCONTRACT && d.Transfer? then ShowTransfer(env, mode, st)
    else if t == TRIGGERSMARTCONTRACT && d.Trigger? then
      (if d.call.trcMethod != 0 && d.token.Some? then ShowToken(env, mode, st) else ShowCustom(settings, st))
    else if t == INVALID_CONTRACT then Refuse(st, E_INCORRECT_DATA)
    else if HashOnly(t) then
      (if settings.signByHash then (st.(pending := true), Review(OtherDisplay))
       else Refuse(st, E_MISSING_SETTING_SIGN_BY_HASH))
    else
      match env.screen(t, d)
      case Shown => (st.(pending := true), Review(OtherDisplay))
      case Refused => Refuse(st, E_INCORRECT_DATA)
      case Crashed => Crash(st)
  }

  /** Only TRX transfers and transfers of known tokens without extra data are acceptable in a swap. */
  predicate SwapKind(content: TxContent) {
    && (content.contractType == TRANSFERCONTRACT || content.contractType == TRIGGERSMARTCONTRACT)
    && (content.contractType == TRIGGERSMARTCONTRACT ==>
          content.detail.Trigger? && content.detail.call.trcMethod == 1)
    && content.dataBytes == 0
  }

  /** After the last chunk: the hash is completed and the content checked. */
  function Finalize(env: Env, mode: Mode, settings: Settings, st0: State): (State, Reply) {
    var st := st0.(hash := env.sha256(st0.hashed));
    if !settings.dataAllowed && st.content.dataBytes != 0 then Refuse(st, E_MISSING_SETTING_DATA_ALLOWED)
    else if st.content.permissionId < 0 || st.content.permissionId > 9 then Refuse(st, E_INCORRECT_DATA)
    else if mode.InSwap? && !SwapKind(st.content) then Refuse(st, E_SWAP_CHECKING_FAIL)
    else ShowContract(env, mode, settings, st)
  }

  // Chunks

  /** From the hash update on: every command with a payload, and the last token name. */
  function Process(env: Env, mode: Mode, settings: Settings, st: State, p1: nat, chunk: seq<byte>): (State, Reply) {
    if !st.initialized then (st, Sw(E_INCORRECT_P1_P2))
    else if mode.InSwap? && st.swapReady then (st.(hashed := st.hashed + chunk, ended := true), Silent)
    else
      var st1 := st.(hashed := st.hashed + chunk, swapReady := st.swapReady || mode.InSwap?);
      var (status, content) := ProcessTx(env, settings.dataAllowed, st.content, chunk);
      match status
      case Fault => (Init(st1), Sw(E_INCORRECT_DATA))
      case DataNotAllowed =>
        (Init(st1), Sw(if mode.InSwap? then E_SWAP_CHECKING_FAIL else E_MISSING_SETTING_DATA_ALLOWED))
      case Finished => Finalize(env, mode, settings, st1.(content := content))
      case Processing =>
        if p1 == P1_LAST || p1 == P1_SIGN then Finalize(env, mode, settings, st1.(content := content))
        else (st1.(content := content), Sw(E_OK))
  }

  function Rename(st: State, names: seq<string>): State {
    if st.content.detail.Other? then st.(content := st.content.(detail := st.content.detail.(names := names))) else st
  }

  /** Names of the tokens of a TRC10 transfer or an exchange; the last one completes the transaction. */
  function NameToken(env: Env, mode: Mode, settings: Settings, st: State, p1: nat, data: seq<byte>): (State, Reply) {
    var t, last := st.content.contractType, p1 / 8 % 2 == 1;
    var limit := if t == TRANSFERASSETCONTRACT || t == 41 then 1 else 0;
    if !(t in {TRANSFERASSETCONTRACT, 41, 42, 43, 44}) then (st, Sw(E_INCORRECT_DATA))
    else if p1 % 8 > limit || (limit == 0 && !last) then (st, Sw(E_INCORRECT_P1_P2))
    else
      var named := env.tokenName(t, st.content.detail, p1 % 8, data);
      var st1 := Rename(st, named.names);
      if !named.ok then (st1, Sw(E_INCORRECT_DATA))
      else if !last then (st1, Sw(E_OK))
      else Process(env, mode, settings, st1, p1, [])
  }

  /** handleSign. */
  function HandleSign(env: Env, mode: Mode, st: State, p1: nat, p2: nat, data: seq<byte>, settings: Settings)
    : (State, Reply)
  {
    if p2 != 0 then (st, Sw(E_INCORRECT_P1_P2))
    else if Opens(p1) then
      var (taken, path) := ReadPath(data, st.path);
      match taken
      case None => (st.(path := path), Sw(E_INCORRECT_BIP32_PATH))
      case Some(n) => Process(env, mode, settings, Init(st.(path := path)), p1, data[n..])
    else if NamesToken(p1) then NameToken(env, mode, settings, st, p1, data)
    else if p1 != P1_MORE && p1 != P1_LAST then (st, Sw(E_INCORRECT_P1_P2))
    else Process(env, mode, settings, st, p1, data)
  }

  /** While a review is on the screen only the user can act, and nothing happens after the end. */
  function Step(env: Env, mode: Mode, st: State, e: Event): (State, Reply) {
    if st.ended then (st, Silent)
    else
      match e
      case Apdu(p1, p2, data, settings) =>
        if st.pending then (st, Silent) else HandleSign(env, mode, st, p1, p2, data, settings)
      case Confirm => if st.pending then Release(env, st) else (st, Silent)
      case Reject => if st.pending then Refuse(st, E_CONDITIONS_OF_USE_NOT_SATISFIED) else (st, Silent)
  }
}
