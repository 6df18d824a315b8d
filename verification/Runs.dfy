/** What holds in every run of INS_SIGN commands and user decisions. */
module Runs {
  import opened Arith
  import opened Schema
  import opened Wire
  import opened Radix
  import opened Decimal
  import opened Amount
  import opened Transaction
  import opened Chunks
  import opened Swap
  import opened Session

  // What an observer of commands and replies knows: the payloads accepted since the session started

  /** The payload behind the path of an opening command. */
  function Payload(data: seq<byte>): seq<byte> {
    if |data| > 0 && 1 + |data[1..]| >= 1 + 4 * (data[0] as int) then data[1 + 4 * (data[0] as int)..] else []
  }

  function Observe(h: seq<seq<byte>>, e: Event, r: Reply): seq<seq<byte>> {
    match e
    case Apdu(p1, p2, data, _) =>
      if r.Silent? then h
      else if r.Sw? && r.sw != E_OK then
        (if r.sw == E_INCORRECT_P1_P2 || r.sw == E_INCORRECT_BIP32_PATH || NamesToken(p1) then h else [])
      else if Opens(p1) then [Payload(data)]
      else if NamesToken(p1) then h
      else h + [data]
    case _ => if r.Silent? then h else []
  }

  /** The state after a run from power-up, and the accepted payloads. */
  function Run(env: Env, mode: Mode, events: seq<Event>): (State, seq<seq<byte>>) {
    if events == [] then (BOOT, [])
    else
      var (st, h) := Run(env, mode, events[..|events| - 1]);
      var e := events[|events| - 1];
      var (st', r) := Step(env, mode, st, e);
      (st', Observe(h, e, r))
  }

  // What the payloads say, chunk by chunk

  function Fee(chunk: seq<byte>): u64 {
    if ChunkTx(chunk).Some? then ChunkTx(chunk).value.fee else 0
  }

  /** A chunk with a contract parameter, which is what the device records and shows of a contract. */
  predicate Carries(chunk: seq<byte>) {
    ChunkTx(chunk).Some? && Parameter(ChunkTx(chunk).value).Some?
  }

  /** The contract of a chunk with a contract parameter, as far as the device can read it. */
  function DetailIn(env: Env, chunk: seq<byte>): Option<Detail>
    requires Carries(chunk)
  {
    var calls := Parameter(ChunkTx(chunk).value).value;
    if Captured(calls).None? then None else DetailOf(env, KindIn(chunk), Captured(calls).value)
  }

  function KindIn(chunk: seq<byte>): nat
    requires Carries(chunk)
  {
    ChunkTx(chunk).value.contracts[0].kind
  }

  function PermissionIn(chunk: seq<byte>): int
    requires Carries(chunk)
  {
    ChunkTx(chunk).value.contracts[0].permissionId
  }

  function Carriers(h: seq<seq<byte>>): nat {
    if h == [] then 0 else Carriers(h[..|h| - 1]) + if Carries(h[|h| - 1]) then 1 else 0
  }

  /** The last chunk with a contract parameter. */
  function Carrier(h: seq<seq<byte>>): (chunk: seq<byte>)
    requires Carriers(h) > 0
    ensures Carries(chunk) && chunk in h
  {
    if Carries(h[|h| - 1]) then h[|h| - 1] else Carrier(h[..|h| - 1])
  }

  /** A chunk with a Contract message that has no parameter: the device hashes it and takes no further notice. */
  predicate Bare(chunk: seq<byte>) {
    ChunkTx(chunk).Some? && ChunkTx(chunk).value.contracts != [] && !Carries(chunk)
  }

  /** The Contract messages in the payloads, with or without a parameter. */
  function Contracts(h: seq<seq<byte>>): nat {
    if h == [] then 0
    else
      var tx := ChunkTx(h[|h| - 1]);
      Contracts(h[..|h| - 1]) + if tx.Some? then |tx.value.contracts| else 0
  }

  ghost predicate NoneBare(h: seq<seq<byte>>) {
    forall chunk :: chunk in h ==> !Bare(chunk)
  }

  /** There are as many Contract messages as contract parameters exactly when none goes without. */
  lemma {:induction false} ContractCount(h: seq<seq<byte>>)
    ensures Contracts(h) >= Carriers(h)
    ensures Contracts(h) == Carriers(h) <==> NoneBare(h)
  {
    if h == [] {
    } else {
      var before, chunk := h[..|h| - 1], h[|h| - 1];
      ContractCount(before);
      if ChunkTx(chunk).Some? {
        OneContract(chunk);
      }
      assert NoneBare(h) <==> NoneBare(before) && !Bare(chunk) by {
        assert forall x :: x in h <==> x in before || x == chunk;
      }
    }
  }

  /** The size of the last custom data record in the payloads. */
  function DataIn(h: seq<seq<byte>>): nat {
    if h == [] then 0
    else
      var before := DataIn(h[..|h| - 1]);
      if ChunkTx(h[|h| - 1]).Some? then DataBytes(ChunkTx(h[|h| - 1]).value.data, before) else before
  }

  /** `fee` is the fee limit of every payload that gives one, and 0 when none does. */
  ghost predicate FeeAgrees(h: seq<seq<byte>>, fee: u64) {
    && (forall chunk :: chunk in h ==> Fee(chunk) == 0 || Fee(chunk) == fee)
    && (fee != 0 ==> exists chunk :: chunk in h && Fee(chunk) == fee)
  }

  /** A contract's details, before any token names were attached. */
  function Unnamed(d: Detail): Detail {
    if d.Other? then d.(names := []) else d
  }

  // The invariant

  /** The recorded content is what the payloads say. */
  ghost predicate Summary(env: Env, h: seq<seq<byte>>, c: TxContent) {
    && Consistent(c) && FeeAgrees(h, c.feeLimit) && c.dataBytes == DataIn(h)
    && Carriers(h) == (if c.contractSeen then 1 else 0)
    && (c.contractSeen ==>
          && c.contractType == KindIn(Carrier(h)) && c.permissionId == PermissionIn(Carrier(h)) && c.detail != NoDetail
          && DetailIn(env, Carrier(h)) == Some(Unnamed(c.detail)))
    && (!c.contractSeen ==> c.contractType == INVALID_CONTRACT && c.detail == NoDetail)
  }

  /** No session: neither a chunk nor a token name is accepted. */
  predicate Closed(st: State) {
    !st.initialized && !st.pending && (st.content.contractType == 0 || st.content.contractType == INVALID_CONTRACT)
  }

  /** An open session hashes and records the payloads; a review is about their completed hash. */
  ghost predicate Open(env: Env, mode: Mode, st: State, h: seq<seq<byte>>) {
    && st.initialized && st.hashed == Concat(h) && Summary(env, h, st.content)
    && (st.pending ==> st.hash == env.sha256(st.hashed) && st.content.contractSeen && mode.Standalone?)
  }

  ghost predicate Inv(env: Env, mode: Mode, st: State, h: seq<seq<byte>>) {
    Closed(st) || Open(env, mode, st, h)
  }

  // Accepting a chunk

  lemma {:induction false} Append(h: seq<seq<byte>>, chunk: seq<byte>)
    ensures (h + [chunk])[..|h + [chunk]| - 1] == h
    ensures Carriers(h + [chunk]) == Carriers(h) + if Carries(chunk) then 1 else 0
    ensures Carries(chunk) ==> Carrier(h + [chunk]) == chunk
    ensures !Carries(chunk) && Carriers(h) > 0 ==> Carrier(h + [chunk]) == Carrier(h)
    ensures DataIn(h + [chunk]) ==
            if ChunkTx(chunk).Some? then DataBytes(ChunkTx(chunk).value.data, DataIn(h)) else DataIn(h)
  {
    assert (h + [chunk])[..|h + [chunk]| - 1] == h;
  }

  lemma {:induction false} EmptyChunk()
    ensures ChunkTx([]) == Some(Tx([], [], 0))
  {
    DefaultRaw();
    FeeOnlyTx(0);
    assert DecodeFields(RAW, DefaultSlots(RAW), []) == Some(DefaultSlots(RAW));
  }

  lemma {:induction false} FeeAppend(h: seq<seq<byte>>, fee: u64, chunk: seq<byte>, fee': u64)
    requires FeeAgrees(h, fee)
    requires fee' == (if Fee(chunk) != 0 then Fee(chunk) else fee) &&
             (Fee(chunk) != 0 && fee != 0 ==> Fee(chunk) == fee)
    ensures FeeAgrees(h + [chunk], fee')
  {
    var g := h + [chunk];
    assert chunk in g;
    assert forall x :: x in h ==> x in g;
    forall x | x in g
      ensures Fee(x) == 0 || Fee(x) == fee'
    {
      assert x in h || x == chunk;
    }
    if fee' != 0 && Fee(chunk) != fee' {
      var x :| x in h && Fee(x) == fee;
      assert x in g;
    }
  }

  /** What one accepted chunk does to the content, in terms of what it decodes to. */
  lemma {:induction false} ProcessFacts(env: Env, allowed: bool, c: TxContent, tx: Tx)
    requires Consistent(c) && ProcessDecoded(env, allowed, c, tx).0.Processing?
    ensures
      var c' := ProcessDecoded(env, allowed, c, tx).1;
      && Consistent(c') && c'.dataBytes == DataBytes(tx.data, c.dataBytes)
      && c'.feeLimit == (if tx.fee != 0 then tx.fee else c.feeLimit)
      && (tx.fee != 0 && c.feeLimit != 0 ==> tx.fee == c.feeLimit)
      && (Parameter(tx).None? ==>
            && c'.contractSeen == c.contractSeen && c'.contractType == c.contractType
            && c'.permissionId == c.permissionId && c'.detail == c.detail)
      && (Parameter(tx).Some? ==>
            && !c.contractSeen && c'.contractSeen && c'.contractType == tx.contracts[0].kind
            && c'.permissionId == tx.contracts[0].permissionId && Captured(Parameter(tx).value).Some?
            && DetailOf(env, tx.contracts[0].kind, Captured(Parameter(tx).value).value) == Some(c'.detail))
  {}

  lemma {:induction false} DetailIsFresh(env: Env, kind: nat, payload: seq<byte>)
    requires DetailOf(env, kind, payload).Some?
    ensures DetailOf(env, kind, payload).value != NoDetail
    ensures Unnamed(DetailOf(env, kind, payload).value) == DetailOf(env, kind, payload).value
  {}

  lemma {:induction false} AcceptChunk(env: Env, allowed: bool, h: seq<seq<byte>>, c: TxContent, chunk: seq<byte>)
    requires Summary(env, h, c)
    requires ProcessTx(env, allowed, c, chunk).0.Processing? || chunk == []
    ensures Summary(env, h + [chunk], ProcessTx(env, allowed, c, chunk).1)
  {
    Append(h, chunk);
    if chunk == [] {
      EmptyChunk();
      FeeAppend(h, c.feeLimit, chunk, c.feeLimit);
    } else {
      var tx, c' := ChunkTx(chunk).value, ProcessTx(env, allowed, c, chunk).1;
      ProcessFacts(env, allowed, c, tx);
      FeeAppend(h, c.feeLimit, chunk, c'.feeLimit);
      if Carries(chunk) {
        DetailIsFresh(env, tx.contracts[0].kind, Captured(Parameter(tx).value).value);
      }
    }
  }

  lemma {:induction false} EmptySummary(env: Env)
    ensures Summary(env, [], EMPTY) && Concat([]) == []
  {}

  // Releasing a signature

  /** An amount at its decimals is the validated amount at its decimals, for the validated token and recipient. */
  predicate SwapMatches(v: Validated, amount: nat, decimals: nat, ticker: string, to: string) {
    && amount * Pow(10, v.decimals) == v.amount * Pow(10, decimals)
    && (decimals == v.decimals ==> amount == v.amount)
    && ticker == v.ticker && to == v.recipient
  }

  /** The validated strings fit the buffers that hold them. */
  predicate Stored(v: Validated) {
    |v.ticker| < 15 && |v.recipient| <= 34
  }

  /** What a transaction must be for a signature in swap mode, read off its contract. */
  predicate SwapTransfer(env: Env, v: Validated, d: Detail) {
    match d
    case Transfer(_, to, amount) => SwapMatches(v, amount, SUN_DIG, "TRX", env.base58(to))
    case Trigger(_, _, call, callValue, callTokenValue, _, token) =>
      && call.trcMethod == 1 && token.Some? && callValue == 0 && callTokenValue == 0
      && SwapMatches(v, BigEndian(call.value), token.value.decimals, token.value.ticker, env.base58(call.to))
    case _ => false
  }

  ghost predicate SwapAllowed(env: Env, v: Validated, h: seq<seq<byte>>) {
    && Carriers(h) == 1 && DataIn(h) == 0
    && (exists fee: u64 :: fee <= 100_000_000 && FeeAgrees(h, fee))
    && DetailIn(env, Carrier(h)).Some? && SwapTransfer(env, v, DetailIn(env, Carrier(h)).value)
  }

  lemma {:induction false} SameTextSymmetric(a: string, b: string, n: nat)
    ensures SameText(a, b, n) <==> SameText(b, a, n)
  {}

  lemma {:induction false} ValidMatches(v: Validated, printable: nat, text: string, ticker: string, action: string,
                                        to: string, amount: nat, decimals: nat)
    requires Swap.Valid(v, printable, text, ticker, action, to) && Stored(v)
    requires |Fraction(text)| <= decimals && Scaled(text, decimals) == amount
    ensures SwapMatches(v, amount, decimals, ticker, to)
  {
    MatchingAmount(v, text, printable, amount, decimals);
    if decimals == v.decimals {
      EqualDecimals(amount, v.amount, decimals);
    }
    SameTextExact(ticker, v.ticker, MAX_SWAP_TOKEN_LENGTH);
    SameTextSymmetric(v.recipient, to, ADDRESS_LENGTH + 1);
    SameTextExact(to, v.recipient, ADDRESS_LENGTH + 1);
  }

  lemma {:induction false} ValidNotEmpty(v: Validated, printable: nat, text: string)
    requires AmountMatches(v, text, printable)
    ensures text != ""
  {
    var digits := Numeral(v.amount, 10);
    NumeralCanonical(v.amount, 10);
    AdjustedKeepsValue(digits, v.decimals);
  }

  lemma {:induction false} TransferMatches(v: Validated, printable: nat, amount: u64, to: string)
    requires PrintSpec(amount, LINE, SUN_DIG).Text? && Stored(v)
    requires Swap.Valid(v, printable, PrintSpec(amount, LINE, SUN_DIG).text, "TRX", "To", to)
    ensures SwapMatches(v, amount, SUN_DIG, "TRX", to)
  {
    var text := PrintSpec(amount, LINE, SUN_DIG).text;
    ValidNotEmpty(v, printable, text);
    PrintDenotes(amount, LINE, SUN_DIG);
    ValidMatches(v, printable, text, "TRX", "To", to, amount, SUN_DIG);
  }

  lemma {:induction false} TokenMatches(v: Validated, printable: nat, value: nat, token: Token, action: string,
                                        to: string)
    requires Swap.Valid(v, printable, Adjusted(Numeral(value, 10), token.decimals), token.ticker, action, to) &&
             Stored(v)
    ensures SwapMatches(v, value, token.decimals, token.ticker, to)
  {
    var digits := Numeral(value, 10);
    NumeralCanonical(value, 10);
    NumeralDenotes(value, 10);
    AdjustedKeepsValue(digits, token.decimals);
    ValidMatches(v, printable, Adjusted(digits, token.decimals), token.ticker, action, to, value, token.decimals);
  }

  // The end of a session

  lemma {:induction false} DetailShape(env: Env, kind: nat, payload: seq<byte>)
    requires DetailOf(env, kind, payload).Some?
    ensures kind != INVALID_CONTRACT
    ensures
      var d := DetailOf(env, kind, payload).value;
      && (kind == TRANSFERCONTRACT <==> d.Transfer?) && (kind == TRIGGERSMARTCONTRACT <==> d.Trigger?)
      && (d.Trigger? && d.call.trcMethod != 0 ==> d.token.Some?)
  {}

  lemma {:induction false} ContentShape(env: Env, h: seq<seq<byte>>, c: TxContent)
    requires Summary(env, h, c)
    ensures WellShaped(c)
  {
    if c.contractSeen {
      var calls := Parameter(ChunkTx(Carrier(h)).value).value;
      DetailShape(env, c.contractType, Captured(calls).value);
    }
  }

  /** Status words that only a command which ends or restarts the session returns. */
  predicate Closing(sw: nat) {
    sw != E_OK && sw != E_INCORRECT_P1_P2 && sw != E_INCORRECT_BIP32_PATH
  }

  /** How finishing a session may turn out. */
  ghost predicate Outcome(env: Env, mode: Mode, st: State, st': State, r: Reply) {
    match r
    case Review(_) => st' == st.(pending := true) && mode.Standalone? && st.content.contractSeen
    case Sw(sw) => st' == Terminate(st) && Closing(sw)
    case Signature(bytes) =>
      st' == Terminate(st) && mode.InSwap? && st.content.contractSeen && env.sign(st.path, st.hash) == Some(bytes)
    case Silent => st'.ended && st'.swapReady == st.swapReady
  }

  lemma {:induction false} ShowOutcome(env: Env, mode: Mode, st: State, text: string, ticker: string, action: string,
                                       to: string)
    requires st.content.contractSeen
    ensures
      var (st', r) := Show(env, mode, st, text, ticker, action, to);
      Outcome(env, mode, st, st', r) && (r.Signature? ==>
        st.content.feeLimit <= MAX_SWAP_FEE_LIMIT &&
        Swap.Valid(mode.validated, mode.printable, text, ticker, action, to))
  {}

  /** The shape that a summary gives a content, without the summary itself. */
  predicate WellShaped(c: TxContent) {
    && (c.contractSeen <==> c.contractType != INVALID_CONTRACT)
    && (c.contractType == TRANSFERCONTRACT <==> c.detail.Transfer?)
    && (c.contractType == TRIGGERSMARTCONTRACT <==> c.detail.Trigger?)
    && (c.detail.Trigger? && c.detail.call.trcMethod != 0 ==> c.detail.token.Some?)
  }

  lemma {:induction false} ContractOutcome(env: Env, mode: Mode, settings: Settings, st: State)
    requires WellShaped(st.content) && (mode.InSwap? ==> SwapKind(st.content))
    ensures
      var (st', r) := ShowContract(env, mode, settings, st);
      Outcome(env, mode, st, st', r)
  {
    var d := st.content.detail;
    if d.Transfer? {
      if PrintSpec(d.amount, LINE, SUN_DIG).Text? {
        ShowOutcome(env, mode, st, PrintSpec(d.amount, LINE, SUN_DIG).text, "TRX", "To", env.base58(d.to));
      }
    } else if d.Trigger? && d.call.trcMethod != 0 {
      TokenOutcome(env, mode, st);
    }
  }

  lemma {:induction false} TokenOutcome(env: Env, mode: Mode, st: State)
    requires st.content.contractSeen && st.content.detail.Trigger? && st.content.detail.token.Some?
    ensures
      var (st', r) := ShowToken(env, mode, st);
      Outcome(env, mode, st, st', r)
  {
    var d := st.content.detail;
    ShowOutcome(env, mode, st, Adjusted(Numeral(BigEndian(d.call.value), 10), d.token.value.decimals),
                d.token.value.ticker, if d.call.trcMethod == 1 then "To" else "Allow", env.base58(d.call.to));
  }

  lemma {:induction false} FinalizeOutcome(env: Env, mode: Mode, settings: Settings, st: State)
    requires WellShaped(st.content)
    ensures
      var (st', r) := Finalize(env, mode, settings, st);
      Outcome(env, mode, st.(hash := env.sha256(st.hashed)), st', r)
  {
    if mode.InSwap? ==> SwapKind(st.content) {
      ContractOutcome(env, mode, settings, st.(hash := env.sha256(st.hashed)));
    }
  }

  // What a signature in swap mode is for

  lemma {:induction false} SwapRelease(env: Env, mode: Mode, settings: Settings, st: State)
    requires WellShaped(st.content) && mode.InSwap? && Stored(mode.validated)
    requires Finalize(env, mode, settings, st).1.Signature?
    ensures st.content.dataBytes == 0 && st.content.feeLimit <= MAX_SWAP_FEE_LIMIT
    ensures SwapTransfer(env, mode.validated, st.content.detail)
  {
    var st1 := st.(hash := env.sha256(st.hashed));
    if st.content.detail.Transfer? {
      TransferRelease(env, mode, st1);
    } else {
      TokenRelease(env, mode, st1);
    }
  }

  lemma {:induction false} TransferRelease(env: Env, mode: Mode, st: State)
    requires st.content.contractSeen && st.content.detail.Transfer? && mode.InSwap? && Stored(mode.validated)
    requires ShowTransfer(env, mode, st).1.Signature?
    ensures st.content.feeLimit <= MAX_SWAP_FEE_LIMIT && SwapTransfer(env, mode.validated, st.content.detail)
  {
    var d := st.content.detail;
    ShowOutcome(env, mode, st, PrintSpec(d.amount, LINE, SUN_DIG).text, "TRX", "To", env.base58(d.to));
    TransferMatches(mode.validated, mode.printable, d.amount, env.base58(d.to));
  }

  lemma {:induction false} TokenRelease(env: Env, mode: Mode, st: State)
    requires st.content.contractSeen && st.content.detail.Trigger? && st.content.detail.token.Some?
    requires st.content.detail.call.trcMethod == 1 && mode.InSwap? && Stored(mode.validated)
    requires ShowToken(env, mode, st).1.Signature?
    ensures st.content.feeLimit <= MAX_SWAP_FEE_LIMIT && SwapTransfer(env, mode.validated, st.content.detail)
  {
    var d := st.content.detail;
    ShowOutcome(env, mode, st, Adjusted(Numeral(BigEndian(d.call.value), 10), d.token.value.decimals),
                d.token.value.ticker, "To", env.base58(d.call.to));
    TokenMatches(mode.validated, mode.printable, BigEndian(d.call.value), d.token.value, "To", env.base58(d.call.to));
  }

  lemma {:induction false} SwapPayloads(env: Env, v: Validated, h: seq<seq<byte>>, c: TxContent)
    requires Summary(env, h, c) && c.contractSeen && c.dataBytes == 0 && c.feeLimit <= MAX_SWAP_FEE_LIMIT
    requires SwapTransfer(env, v, c.detail)
    ensures SwapAllowed(env, v, h)
  {
    assert Unnamed(c.detail) == c.detail;
    assert FeeAgrees(h, c.feeLimit);
  }

  // Steps

  /** A signature over the given payloads, and what they are. */
  ghost predicate Covers(env: Env, mode: Mode, path: seq<nat>, h: seq<seq<byte>>, bytes: seq<byte>) {
    && env.sign(path, env.sha256(Concat(h))) == Some(bytes) && Carriers(h) == 1
    && (exists fee: u64 :: FeeAgrees(h, fee))
    && (mode.InSwap? && Stored(mode.validated) ==> SwapAllowed(env, mode.validated, h))
  }

  /** Finishing a session over the payloads `h`. */
  lemma {:induction false} FinishSession(env: Env, mode: Mode, settings: Settings, st: State, h: seq<seq<byte>>)
    requires Open(env, mode, st, h) && !st.pending
    ensures
      var (st', r) := Finalize(env, mode, settings, st);
      && (r.Silent? ==> st'.ended) && (r.Sw? ==> Closed(st') && Closing(r.sw))
      && (r.Review? ==> Open(env, mode, st', h) && st'.pending)
      && (r.Signature? ==> Closed(st') && mode.InSwap? && Covers(env, mode, st'.path, h, r.bytes))
      && st'.swapReady == st.swapReady
  {
    ContentShape(env, h, st.content);
    FinalizeOutcome(env, mode, settings, st);
    if Finalize(env, mode, settings, st).1.Signature? {
      assert FeeAgrees(h, st.content.feeLimit);
      if Stored(mode.validated) {
        SwapRelease(env, mode, settings, st);
        SwapPayloads(env, mode.validated, h, st.content);
      }
    }
  }

  /** The session behind an accepted chunk. */
  function Advanced(st: State, mode: Mode, chunk: seq<byte>, content: TxContent): State {
    st.(hashed := st.hashed + chunk, swapReady := st.swapReady || mode.InSwap?, content := content)
  }

  lemma {:induction false} Accepting(env: Env, mode: Mode, allowed: bool, st: State, h: seq<seq<byte>>,
                                     chunk: seq<byte>)
    requires Open(env, mode, st, h) && !st.pending
    requires ProcessTx(env, allowed, st.content, chunk).0.Processing? || chunk == []
    ensures Open(env, mode, Advanced(st, mode, chunk, ProcessTx(env, allowed, st.content, chunk).1), h + [chunk])
  {
    ConcatAppend(h, chunk);
    AcceptChunk(env, allowed, h, st.content, chunk);
  }

  /** How a command with a payload may turn out, when `h` are the payloads including its own. */
  ghost predicate Processed(env: Env, mode: Mode, st: State, h: seq<seq<byte>>, st': State, r: Reply) {
    && (r.Silent? ==> st'.ended)
    && (r.Sw? && r.sw != E_OK ==> Closing(r.sw) && Inv(env, mode, st', []) && !st'.pending)
    && (r == Sw(E_OK) || r.Review? ==> Open(env, mode, st', h)) && (r.Review? ==> st'.pending)
    && (r.Signature? ==> Closed(st') && mode.InSwap? && Covers(env, mode, st'.path, h, r.bytes))
    && (mode.InSwap? ==> st'.swapReady && (st.swapReady ==> r.Silent?))
  }

  lemma {:induction false} ProcessAccepted(env: Env, mode: Mode, settings: Settings, st: State, h: seq<seq<byte>>,
                                           p1: nat, chunk: seq<byte>)
    requires Open(env, mode, st, h) && !st.pending && !(mode.InSwap? && st.swapReady)
    requires ProcessTx(env, settings.dataAllowed, st.content, chunk).0.Processing? || chunk == []
    ensures
      var (st', r) := Process(env, mode, settings, st, p1, chunk);
      Processed(env, mode, st, h + [chunk], st', r)
  {
    var content := ProcessTx(env, settings.dataAllowed, st.content, chunk).1;
    Accepting(env, mode, settings.dataAllowed, st, h, chunk);
    FinishSession(env, mode, settings, Advanced(st, mode, chunk, content), h + [chunk]);
  }

  lemma {:induction false} ProcessRefused(env: Env, mode: Mode, settings: Settings, st: State, h: seq<seq<byte>>,
                                          p1: nat, chunk: seq<byte>)
    requires st.initialized && !st.pending
    requires (mode.InSwap? && st.swapReady) ||
             (chunk != [] && !ProcessTx(env, settings.dataAllowed, st.content, chunk).0.Processing?)
    ensures
      var (st', r) := Process(env, mode, settings, st, p1, chunk);
      Processed(env, mode, st, h, st', r)
  {
    EmptySummary(env);
  }

  /** A chunk, processed on top of the payloads so far. */
  lemma {:induction false} ProcessChunk(env: Env, mode: Mode, settings: Settings, st: State, h: seq<seq<byte>>,
                                        p1: nat, chunk: seq<byte>)
    requires Open(env, mode, st, h) && !st.pending
    ensures
      var (st', r) := Process(env, mode, settings, st, p1, chunk);
      Processed(env, mode, st, h + [chunk], st', r)
  {
    if !(mode.InSwap? && st.swapReady) &&
       (ProcessTx(env, settings.dataAllowed, st.content, chunk).0.Processing? || chunk == []) {
      ProcessAccepted(env, mode, settings, st, h, p1, chunk);
    } else {
      ProcessRefused(env, mode, settings, st, h + [chunk], p1, chunk);
    }
  }

  /** The empty chunk behind the last token name adds nothing to the payloads. */
  lemma {:induction false} ProcessNothing(env: Env, mode: Mode, settings: Settings, st: State, h: seq<seq<byte>>,
                                          p1: nat)
    requires Open(env, mode, st, h) && !st.pending
    ensures
      var (st', r) := Process(env, mode, settings, st, p1, []);
      && (r.Silent? ==> st'.ended) && (r.Sw? ==> Closed(st') && Closing(r.sw))
      && (r.Review? ==> Open(env, mode, st', h) && st'.pending)
      && (r.Signature? ==> Closed(st') && mode.InSwap? && Covers(env, mode, st'.path, h, r.bytes))
      && (mode.InSwap? ==> st'.swapReady && (st.swapReady ==> r.Silent?))
  {
    if !(mode.InSwap? && st.swapReady) {
      assert st.hashed + [] == st.hashed;
      FinishSession(env, mode, settings, st.(swapReady := st.swapReady || mode.InSwap?), h);
    }
  }

  /** The payloads that a signature is about: for a command those it completes, for a decision those under review. */
  function Signed(h: seq<seq<byte>>, e: Event, r: Reply): seq<seq<byte>> {
    if e.Apdu? then Observe(h, e, r) else h
  }

  /** What every step keeps and what a signature means. */
  ghost predicate After(env: Env, mode: Mode, st: State, h: seq<seq<byte>>, e: Event, st': State, r: Reply) {
    && (st'.ended || Inv(env, mode, st', Observe(h, e, r)))
    && (r.Review? ==> Open(env, mode, st', Observe(h, e, r)) && st'.pending)
    && (r.Signature? ==> Closed(st') && Covers(env, mode, st'.path, Signed(h, e, r), r.bytes))
    && (mode.InSwap? && r.Signature? ==> !st.swapReady && st'.swapReady)
    && (mode.InSwap? && st.swapReady ==> st'.swapReady)
  }

  lemma {:induction false} AfterPayload(env: Env, mode: Mode, st: State, st1: State, h: seq<seq<byte>>,
                                        g: seq<seq<byte>>, e: Event, st': State, r: Reply)
    requires e.Apdu? && !NamesToken(e.p1) && Processed(env, mode, st1, g, st', r) && st1.swapReady == st.swapReady
    requires r == Sw(E_OK) || r.Review? || r.Signature? ==> Observe(h, e, r) == g
    ensures After(env, mode, st, h, e, st', r)
  {
    assert r.Sw? && Closing(r.sw) ==> Observe(h, e, r) == [];
  }

  lemma {:induction false} OpeningStep(env: Env, mode: Mode, st: State, h: seq<seq<byte>>, p1: nat, data: seq<byte>,
                                       settings: Settings)
    requires Inv(env, mode, st, h) && !st.pending && Opens(p1)
    ensures
      var (st', r) := HandleSign(env, mode, st, p1, 0, data, settings);
      After(env, mode, st, h, Apdu(p1, 0, data, settings), st', r)
  {
    var (taken, path) := ReadPath(data, st.path);
    if taken.Some? {
      assert data[taken.value..] == Payload(data);
      OpenSession(env, mode, st, h, path, p1, taken.value, data, settings);
    }
  }

  lemma {:induction false} OpenSession(env: Env, mode: Mode, st: State, h: seq<seq<byte>>, path: seq<nat>, p1: nat,
                                       n: nat, data: seq<byte>, settings: Settings)
    requires !st.pending && Opens(p1) && n <= |data| && |data| > 0 && n == 1 + 4 * (data[0] as int)
    ensures
      var (st', r) := Process(env, mode, settings, Init(st.(path := path)), p1, Payload(data));
      After(env, mode, st, h, Apdu(p1, 0, data, settings), st', r)
  {
    var st1, chunk := Init(st.(path := path)), Payload(data);
    var (st', r) := Process(env, mode, settings, st1, p1, chunk);
    EmptySummary(env);
    ProcessChunk(env, mode, settings, st1, [], p1, chunk);
    assert [] + [chunk] == [chunk];
    AfterPayload(env, mode, st, st1, h, [Payload(data)], Apdu(p1, 0, data, settings), st', r);
  }

  lemma {:induction false} ChunkStep(env: Env, mode: Mode, st: State, h: seq<seq<byte>>, p1: nat, data: seq<byte>,
                                     settings: Settings)
    requires Inv(env, mode, st, h) && !st.pending && (p1 == P1_MORE || p1 == P1_LAST)
    ensures
      var (st', r) := HandleSign(env, mode, st, p1, 0, data, settings);
      After(env, mode, st, h, Apdu(p1, 0, data, settings), st', r)
  {
    if st.initialized {
      var (st', r) := Process(env, mode, settings, st, p1, data);
      ProcessChunk(env, mode, settings, st, h, p1, data);
      AfterPayload(env, mode, st, st, h, h + [data], Apdu(p1, 0, data, settings), st', r);
    }
  }

  /** Attaching token names changes nothing that the payloads decide. */
  lemma {:induction false} Renamed(env: Env, mode: Mode, st: State, h: seq<seq<byte>>, names: seq<string>)
    requires Open(env, mode, st, h)
    ensures Open(env, mode, Rename(st, names), h)
    ensures Rename(st, names).swapReady == st.swapReady && Rename(st, names).pending == st.pending
  {}

  lemma {:induction false} AfterName(env: Env, mode: Mode, st: State, h: seq<seq<byte>>, e: Event, st': State, r: Reply)
    requires e.Apdu? && NamesToken(e.p1)
    requires (r.Silent? ==> st'.ended) && (r.Sw? ==> Closed(st')) &&
             (r.Review? ==> Open(env, mode, st', h) && st'.pending)
    requires r.Signature? ==> Closed(st') && mode.InSwap? && Covers(env, mode, st'.path, h, r.bytes)
    requires mode.InSwap? ==> st'.swapReady && (st.swapReady ==> r.Silent?)
    ensures After(env, mode, st, h, e, st', r)
  {
    assert !Opens(e.p1);
    assert r.Review? || r.Signature? ==> Observe(h, e, r) == h;
  }

  lemma {:induction false} LastName(env: Env, mode: Mode, st: State, h: seq<seq<byte>>, st1: State, p1: nat,
                                    data: seq<byte>, settings: Settings)
    requires Open(env, mode, st1, h) && !st1.pending && st1.swapReady == st.swapReady && NamesToken(p1)
    ensures
      var (st', r) := Process(env, mode, settings, st1, p1, []);
      After(env, mode, st, h, Apdu(p1, 0, data, settings), st', r)
  {
    var (st', r) := Process(env, mode, settings, st1, p1, []);
    ProcessNothing(env, mode, settings, st1, h, p1);
    AfterName(env, mode, st, h, Apdu(p1, 0, data, settings), st', r);
  }

  lemma {:induction false} NameStep(env: Env, mode: Mode, st: State, h: seq<seq<byte>>, p1: nat, data: seq<byte>,
                                    settings: Settings)
    requires Inv(env, mode, st, h) && !st.pending && NamesToken(p1)
    ensures
      var (st', r) := NameToken(env, mode, settings, st, p1, data);
      After(env, mode, st, h, Apdu(p1, 0, data, settings), st', r)
  {
    if st.initialized {
      var named := env.tokenName(st.content.contractType, st.content.detail, p1 % 8, data);
      Renamed(env, mode, st, h, named.names);
      if named.ok && p1 / 8 % 2 == 1 {
        LastName(env, mode, st, h, Rename(st, named.names), p1, data, settings);
      }
    }
  }

  lemma {:induction false} DecisionStep(env: Env, mode: Mode, st: State, h: seq<seq<byte>>, e: Event)
    requires Inv(env, mode, st, h) && !st.ended && !e.Apdu?
    ensures
      var (st', r) := Step(env, mode, st, e);
      After(env, mode, st, h, e, st', r)
  {
    if st.pending && Step(env, mode, st, e).1.Signature? {
      assert FeeAgrees(h, st.content.feeLimit);
    }
  }

  lemma {:induction false} EveryStep(env: Env, mode: Mode, st: State, h: seq<seq<byte>>, e: Event)
    requires st.ended || Inv(env, mode, st, h)
    ensures
      var (st', r) := Step(env, mode, st, e);
      After(env, mode, st, h, e, st', r)
  {
    if !st.ended {
      match e
      case Apdu(p1, p2, data, settings) =>
        if !st.pending && p2 == 0 {
          if Opens(p1) {
            OpeningStep(env, mode, st, h, p1, data, settings);
          } else if NamesToken(p1) {
            NameStep(env, mode, st, h, p1, data, settings);
          } else if p1 == P1_MORE || p1 == P1_LAST {
            ChunkStep(env, mode, st, h, p1, data, settings);
          }
        }
      case _ => DecisionStep(env, mode, st, h, e);
    }
  }

  // Runs

  /** In every run the session hashes and records exactly the accepted payloads. */
  lemma {:induction false} EveryRun(env: Env, mode: Mode, events: seq<Event>)
    ensures
      var (st, h) := Run(env, mode, events);
      st.ended || Inv(env, mode, st, h)
  {
    if events == [] {
    } else {
      var before, e := events[..|events| - 1], events[|events| - 1];
      EveryRun(env, mode, before);
      EveryStep(env, mode, Run(env, mode, before).0, Run(env, mode, before).1, e);
    }
  }

  // Swaps

  /** A command that opens a session. */
  predicate Begins(e: Event) {
    e.Apdu? && e.p2 == 0 && Opens(e.p1) && ReadPath(e.data, []).0.Some?
  }

  ghost predicate NoneBegins(events: seq<Event>) {
    forall e :: e in events ==> !Begins(e)
  }

  /** A swap in which no session was opened yet. */
  predicate Fresh(st: State) {
    !st.ended && !st.swapReady && Closed(st)
  }

  /** A command that opens a session hands its payload to a fresh one. */
  lemma {:induction false} BeginStep(env: Env, mode: Mode, st: State, e: Event)
    requires !st.ended && !st.pending && Begins(e)
    ensures
      Step(env, mode, st, e) ==
      Process(env, mode, e.settings, Init(st.(path := ReadPath(e.data, []).1)), e.p1, Payload(e.data))
  {
    ReadPathAnywhere(e.data, st.path);
    var (taken, path) := ReadPath(e.data, st.path);
    assert e.data[taken.value..] == Payload(e.data);
    assert path == ReadPath(e.data, []).1;
  }

  /** The first session of a swap uses up its readiness, and nothing but a session is ever signed. */
  lemma {:induction false} FreshStep(env: Env, mode: Mode, st: State, e: Event)
    requires mode.InSwap? && Fresh(st)
    ensures
      var (st', r) := Step(env, mode, st, e);
      if Begins(e) then st'.ended || st'.swapReady else Fresh(st') && !r.Signature?
  {
    if Begins(e) {
      ReadPathAnywhere(e.data, st.path);
      var (taken, path) := ReadPath(e.data, st.path);
      EmptySummary(env);
      ProcessChunk(env, mode, e.settings, Init(st.(path := path)), [], e.p1, e.data[taken.value..]);
    } else if e.Apdu? {
      ReadPathAnywhere(e.data, st.path);
    }
  }

  lemma {:induction false} SwapOpening(env: Env, mode: Mode, events: seq<Event>)
    requires mode.InSwap?
    ensures
      var st := Run(env, mode, events).0;
      if NoneBegins(events) then Fresh(st) else st.ended || st.swapReady
  {
    if events == [] {
    } else {
      var before, e := events[..|events| - 1], events[|events| - 1];
      SwapOpening(env, mode, before);
      assert forall x :: x in events <==> x in before || x == e;
      if NoneBegins(before) {
        FreshStep(env, mode, Run(env, mode, before).0, e);
      } else {
        EveryRun(env, mode, before);
        EveryStep(env, mode, Run(env, mode, before).0, Run(env, mode, before).1, e);
      }
    }
  }

  /** In a swap only the command that opens the first session can be answered by a signature, for its own payload. */
  lemma {:induction false} OnlyPayload(env: Env, mode: Mode, events: seq<Event>, e: Event)
    requires mode.InSwap?
    ensures
      var (st, h) := Run(env, mode, events);
      var r := Step(env, mode, st, e).1;
      r.Signature? ==> NoneBegins(events) && Begins(e) && Signed(h, e, r) == [Payload(e.data)]
  {
    var (st, h) := Run(env, mode, events);
    SwapOpening(env, mode, events);
    if NoneBegins(events) {
      FreshStep(env, mode, st, e);
    } else {
      EveryRun(env, mode, events);
      EveryStep(env, mode, st, h, e);
    }
  }

  /**
   * Whenever a run releases a signature, it is over SHA-256 of exactly the payloads accepted since the session
   * started; exactly one of them has a contract parameter, all that give a fee limit agree on it, and the
   * session is closed afterwards. They hold a single Contract message exactly when none goes without a parameter.
   * In swap mode there is only one payload, that of the command itself, and it is a transfer as validated.
   */
  lemma {:induction false} SignatureCovers(env: Env, mode: Mode, events: seq<Event>, e: Event)
    ensures
      var (st, h) := Run(env, mode, events);
      var (st', r) := Step(env, mode, st, e);
      r.Signature? ==>
        && Closed(st') && Covers(env, mode, st'.path, Signed(h, e, r), r.bytes)
        && (Contracts(Signed(h, e, r)) == 1 <==> NoneBare(Signed(h, e, r)))
        && (mode.InSwap? ==> e.Apdu? && Signed(h, e, r) == [Payload(e.data)])
  {
    var (st, h) := Run(env, mode, events);
    EveryRun(env, mode, events);
    EveryStep(env, mode, st, h, e);
    ContractCount(Signed(h, e, Step(env, mode, st, e).1));
    if mode.InSwap? {
      OnlyPayload(env, mode, events, e);
    }
  }

  /**
   * Whenever a run shows a review, what was recorded for it is what the payloads say: the type, permission and
   * details of their one contract parameter, the fee limit of every payload that gives one, and the extra data.
   * That is their only Contract message exactly when none goes without a parameter.
   */
  lemma {:induction false} ReviewIsTrue(env: Env, mode: Mode, events: seq<Event>)
    ensures
      var (st, h) := Run(env, mode, events);
      st.pending && !st.ended ==>
        && Carriers(h) == 1 && (Contracts(h) == 1 <==> NoneBare(h))
        && st.content.contractType == KindIn(Carrier(h)) && st.content.permissionId == PermissionIn(Carrier(h))
        && DetailIn(env, Carrier(h)) == Some(Unnamed(st.content.detail))
        && FeeAgrees(h, st.content.feeLimit) && st.content.dataBytes == DataIn(h)
        && st.hash == env.sha256(Concat(h))
  {
    EveryRun(env, mode, events);
    ContractCount(Run(env, mode, events).1);
  }

  /** Signatures released in a run. */
  function Signatures(env: Env, mode: Mode, events: seq<Event>): nat {
    if events == [] then 0
    else
      var before := events[..|events| - 1];
      Signatures(env, mode, before) +
      if Step(env, mode, Run(env, mode, before).0, events[|events| - 1]).1.Signature? then 1 else 0
  }

  /** A run in swap mode releases at most one signature. */
  lemma {:induction false} SwapSignsOnce(env: Env, mode: Mode, events: seq<Event>)
    requires mode.InSwap?
    ensures Signatures(env, mode, events) <= 1
    ensures Signatures(env, mode, events) == 1 ==> Run(env, mode, events).0.swapReady
  {
    if events == [] {
    } else {
      var before, e := events[..|events| - 1], events[|events| - 1];
      SwapSignsOnce(env, mode, before);
      EveryRun(env, mode, before);
      EveryStep(env, mode, Run(env, mode, before).0, Run(env, mode, before).1, e);
    }
  }

  // Settings

  /** What a contract type needs before it may be reviewed. */
  predicate ContractPermitted(settings: Settings, c: TxContent) {
    && (c.contractType in {10, 16, 17, 18} ==> settings.signByHash)
    && (c.contractType == TRIGGERSMARTCONTRACT && c.detail.Trigger? ==>
          if c.detail.call.trcMethod != 0 && c.detail.token.Some?
          then c.detail.callValue == 0 && c.detail.callTokenValue == 0
          else settings.customContract && (c.detail.callValue == 0 || c.detail.callTokenValue == 0))
  }

  /** What the settings and the limits on permissions demand of a content before it may be reviewed. */
  predicate Permitted(settings: Settings, c: TxContent) {
    0 <= c.permissionId <= 9 && (c.dataBytes != 0 ==> settings.dataAllowed) && ContractPermitted(settings, c)
  }

  // What a review shows

  /** The lines show an amount at its decimals, for a token, an action and an address. */
  predicate ShowsAmount(display: Display, amount: nat, decimals: nat, token: string, action: string, to: string) {
    && display.AmountLines? && display.amount != "" && |Fraction(display.amount)| <= decimals
    && Scaled(display.amount, decimals) == amount && display.token == token && display.action == action &&
       display.to == to
  }

  /** A transfer or a known token's call is shown by its lines, and nothing else is. */
  predicate Shows(env: Env, d: Detail, display: Display) {
    if d.Transfer? then ShowsAmount(display, d.amount, SUN_DIG, "TRX", "To", env.base58(d.to))
    else if d.Trigger? && d.call.trcMethod != 0 && d.token.Some? then
      ShowsAmount(display, BigEndian(d.call.value), d.token.value.decimals, d.token.value.ticker,
                  if d.call.trcMethod == 1 then "To" else "Allow", env.base58(d.call.to))
    else display.OtherDisplay?
  }

  lemma {:induction false} ShowReview(env: Env, mode: Mode, st: State, text: string, ticker: string, action: string,
                                      to: string)
    ensures
      var (st', r) := Show(env, mode, st, text, ticker, action, to);
      r.Review? ==> st'.content == st.content && r.display == AmountLines(text, ticker, action, to)
  {}

  /** An amount of TRX that is printed at all is never an empty line. */
  lemma {:induction false} TransferText(amount: u64)
    requires PrintSpec(amount, LINE, SUN_DIG).Text?
    ensures PrintSpec(amount, LINE, SUN_DIG).text != ""
  {
    AdjustedRoom(PlainDigits(amount), SUN_DIG);
    if amount == 0 {
      PaddedZero(SUN_DIG);
    } else {
      NumeralCanonical(amount, 10);
      AdjustedKeepsValue(Numeral(amount, 10), SUN_DIG);
    }
  }

  lemma {:induction false} TransferReview(env: Env, mode: Mode, st: State)
    requires st.content.detail.Transfer?
    ensures
      var (st', r) := ShowTransfer(env, mode, st);
      r.Review? ==> st'.content == st.content && Shows(env, st.content.detail, r.display)
  {
    var d := st.content.detail;
    if PrintSpec(d.amount, LINE, SUN_DIG).Text? {
      TransferText(d.amount);
      PrintDenotes(d.amount, LINE, SUN_DIG);
      ShowReview(env, mode, st, PrintSpec(d.amount, LINE, SUN_DIG).text, "TRX", "To", env.base58(d.to));
    }
  }

  lemma {:induction false} TokenReview(env: Env, mode: Mode, st: State)
    requires st.content.detail.Trigger? && st.content.detail.call.trcMethod != 0 && st.content.detail.token.Some?
    ensures
      var (st', r) := ShowToken(env, mode, st);
      r.Review? ==>
        && st'.content == st.content && Shows(env, st.content.detail, r.display)
        && st.content.detail.callValue == 0 && st.content.detail.callTokenValue == 0
  {
    var d := st.content.detail;
    var value, decimals := BigEndian(d.call.value), d.token.value.decimals;
    NumeralCanonical(value, 10);
    NumeralDenotes(value, 10);
    AdjustedKeepsValue(Numeral(value, 10), decimals);
    ShowReview(env, mode, st, Adjusted(Numeral(value, 10), decimals), d.token.value.ticker,
               if d.call.trcMethod == 1 then "To" else "Allow", env.base58(d.call.to));
  }

  lemma {:induction false} CustomReview(settings: Settings, st: State)
    requires st.content.detail.Trigger?
    ensures
      var (st', r) := ShowCustom(settings, st);
      r.Review? ==>
        && st'.content == st.content && r.display.OtherDisplay? && settings.customContract
        && (st.content.detail.callValue == 0 || st.content.detail.callTokenValue == 0)
  {}

  lemma {:induction false} ContractReview(env: Env, mode: Mode, settings: Settings, st: State)
    ensures
      var (st', r) := ShowContract(env, mode, settings, st);
      r.Review? ==>
        && st'.content == st.content && ContractPermitted(settings, st.content)
        && (WellShaped(st.content) ==> Shows(env, st.content.detail, r.display))
  {
    var t, d := st.content.contractType, st.content.detail;
    if t == TRANSFERCONTRACT && d.Transfer? {
      TransferReview(env, mode, st);
    } else if t == TRIGGERSMARTCONTRACT && d.Trigger? {
      if d.call.trcMethod != 0 && d.token.Some? {
        TokenReview(env, mode, st);
      } else {
        CustomReview(settings, st);
      }
    }
  }

  /** What every review guarantees about the content it is shown for. */
  predicate Reviewed(env: Env, settings: Settings, c: TxContent, display: Display) {
    Permitted(settings, c) && (WellShaped(c) ==> Shows(env, c.detail, display))
  }

  lemma {:induction false} FinalizeReview(env: Env, mode: Mode, settings: Settings, st: State)
    ensures
      var (st', r) := Finalize(env, mode, settings, st);
      r.Review? ==> st'.content == st.content && Reviewed(env, settings, st.content, r.display)
  {
    ContractReview(env, mode, settings, st.(hash := env.sha256(st.hashed)));
  }

  lemma {:induction false} ProcessReview(env: Env, mode: Mode, settings: Settings, st: State, p1: nat, chunk: seq<byte>)
    ensures
      var (st', r) := Process(env, mode, settings, st, p1, chunk);
      r.Review? ==> Reviewed(env, settings, st'.content, r.display)
  {
    var content := ProcessTx(env, settings.dataAllowed, st.content, chunk).1;
    FinalizeReview(env, mode, settings, Advanced(st, mode, chunk, content));
  }

  /**
   * A review is only ever shown for what the settings in force allow: extra data, signing by hash and arbitrary
   * contracts need their setting, a known token's call moves no other value, and the permission is a single digit.
   */
  lemma {:induction false} ReviewIsPermitted(env: Env, mode: Mode, st: State, p1: nat, p2: nat, data: seq<byte>,
                                             settings: Settings)
    ensures
      var (st', r) := HandleSign(env, mode, st, p1, p2, data, settings);
      r.Review? ==> Reviewed(env, settings, st'.content, r.display)
  {
    if Opens(p1) {
      var (taken, path) := ReadPath(data, st.path);
      if taken.Some? {
        ProcessReview(env, mode, settings, Init(st.(path := path)), p1, data[taken.value..]);
      }
    } else if NamesToken(p1) {
      var named := env.tokenName(st.content.contractType, st.content.detail, p1 % 8, data);
      ProcessReview(env, mode, settings, Rename(st, named.names), p1, []);
    } else {
      ProcessReview(env, mode, settings, st, p1, data);
    }
  }

  /** What the payloads say about a review, settings included. */
  ghost predicate TrueReview(env: Env, settings: Settings, h: seq<seq<byte>>, display: Display) {
    && Carriers(h) == 1 && DetailIn(env, Carrier(h)).Some? && Shows(env, DetailIn(env, Carrier(h)).value, display)
    && 0 <= PermissionIn(Carrier(h)) <= 9 && (DataIn(h) != 0 ==> settings.dataAllowed)
    && (KindIn(Carrier(h)) in {10, 16, 17, 18} ==> settings.signByHash)
    && (DetailIn(env, Carrier(h)).value.Trigger? && DetailIn(env, Carrier(h)).value.call.trcMethod == 0 ==>
          settings.customContract)
  }

  lemma {:induction false} ReviewFromPayloads(env: Env, settings: Settings, h: seq<seq<byte>>, c: TxContent,
                                              display: Display)
    requires Summary(env, h, c) && c.contractSeen && Reviewed(env, settings, c, display)
    ensures TrueReview(env, settings, h, display)
  {
    ContentShape(env, h, c);
    UnnamedShows(env, c.detail, display);
  }

  lemma {:induction false} UnnamedShows(env: Env, d: Detail, display: Display)
    ensures Shows(env, d, display) <==> Shows(env, Unnamed(d), display)
  {}

  /**
   * In every run, a review of a transfer or of a known token's call shows a nonempty amount that denotes the amount
   * in the accepted payloads at its decimals, with their token, action and recipient; and the settings allow it.
   */
  lemma {:induction false} ReviewShowsPayloads(env: Env, mode: Mode, events: seq<Event>, e: Event)
    requires e.Apdu?
    ensures
      var (st, h) := Run(env, mode, events);
      var (st', r) := Step(env, mode, st, e);
      r.Review? ==> TrueReview(env, e.settings, Observe(h, e, r), r.display)
  {
    var (st, h) := Run(env, mode, events);
    EveryRun(env, mode, events);
    StepShows(env, mode, st, h, e);
  }

  lemma {:induction false} StepShows(env: Env, mode: Mode, st: State, h: seq<seq<byte>>, e: Event)
    requires e.Apdu? && (st.ended || Inv(env, mode, st, h))
    ensures
      var (st', r) := Step(env, mode, st, e);
      r.Review? ==> TrueReview(env, e.settings, Observe(h, e, r), r.display)
  {
    var (st', r) := Step(env, mode, st, e);
    if r.Review? {
      EveryStep(env, mode, st, h, e);
      ReviewIsPermitted(env, mode, st, e.p1, e.p2, e.data, e.settings);
      ReviewFromPayloads(env, e.settings, Observe(h, e, r), st'.content, r.display);
    }
  }
}
