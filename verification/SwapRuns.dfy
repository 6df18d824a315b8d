/** When exactly a swap transaction is signed, in terms of what the exchange validated. */
module SwapRuns {
  import opened Arith
  import opened Radix
  import opened Decimal
  import opened Amount
  import opened Transaction
  import opened Swap
  import opened Session
  import opened Runs

  /** The exchange validated something, and its amount fits the printable buffer. */
  predicate Ready(v: Validated, printable: nat) {
    v.initialized && ValidatedText(v, printable).Some?
  }

  lemma {:induction false} StringsMatch(v: Validated, ticker: string, to: string)
    requires Stored(v)
    ensures SameText(ticker, v.ticker, MAX_SWAP_TOKEN_LENGTH) <==> ticker == v.ticker
    ensures SameText(v.recipient, to, ADDRESS_LENGTH + 1) <==> to == v.recipient
  {
    SameTextExact(ticker, v.ticker, MAX_SWAP_TOKEN_LENGTH);
    SameTextSymmetric(v.recipient, to, ADDRESS_LENGTH + 1);
    SameTextExact(to, v.recipient, ADDRESS_LENGTH + 1);
  }

  lemma {:induction false} RationalMatches(v: Validated, amount: nat, decimals: nat, ticker: string, to: string)
    ensures SwapMatches(v, amount, decimals, ticker, to) <==>
            amount * Pow(10, v.decimals) == v.amount * Pow(10, decimals) && ticker == v.ticker && to == v.recipient
  {
    if decimals == v.decimals && amount * Pow(10, v.decimals) == v.amount * Pow(10, decimals) {
      EqualDecimals(amount, v.amount, decimals);
    }
  }

  /** A rendered token amount is valid exactly when everything matches, at whatever decimals. */
  lemma {:induction false} TokenValidIff(v: Validated, printable: nat, value: nat, decimals: nat, ticker: string,
                                         to: string)
    requires Stored(v)
    ensures Swap.Valid(v, printable, Adjusted(Numeral(value, 10), decimals), ticker, "To", to) <==>
            Ready(v, printable) && SwapMatches(v, value, decimals, ticker, to)
  {
    if Ready(v, printable) {
      RenderedMatchesIff(v, printable, value, decimals);
    }
    StringsMatch(v, ticker, to);
    RationalMatches(v, value, decimals, ticker, to);
  }

  /** A padded zero is never what the validated amount looks like. */
  lemma {:induction false} ZeroNeverMatches(v: Validated, printable: nat)
    ensures !AmountMatches(v, Adjusted("", SUN_DIG), printable)
  {
    if AmountMatches(v, Adjusted("", SUN_DIG), printable) {
      NumeralCanonical(v.amount, 10);
      AdjustedKeepsValue(Numeral(v.amount, 10), v.decimals);
      AdjustedRoom(Numeral(v.amount, 10), v.decimals);
      SameTextExact(Adjusted("", SUN_DIG), Adjusted(Numeral(v.amount, 10), v.decimals), printable);
      PaddedZero(SUN_DIG);
      assert false;
    }
  }

  /** A TRX amount is valid exactly when it is positive and everything matches. */
  lemma {:induction false} TransferValidIff(v: Validated, printable: nat, amount: u64, to: string)
    requires Stored(v) && PrintSpec(amount, LINE, SUN_DIG).Text?
    ensures Swap.Valid(v, printable, PrintSpec(amount, LINE, SUN_DIG).text, "TRX", "To", to) <==>
            amount > 0 && Ready(v, printable) && SwapMatches(v, amount, SUN_DIG, "TRX", to)
  {
    TransferText(amount);
    if amount == 0 {
      ZeroNeverMatches(v, printable);
    } else {
      TokenValidIff(v, printable, amount, SUN_DIG, "TRX", to);
    }
  }

  /** The contracts that are signed in a swap: positive amounts that can be shown, as validated. */
  predicate SwapDetail(env: Env, v: Validated, d: Detail) {
    match d
    case Transfer(_, to, amount) =>
      0 < amount < Pow(10, 19) && SwapMatches(v, amount, 6, "TRX", env.base58(to))
    case Trigger(_, _, call, callValue, callTokenValue, _, token) =>
      && call.trcMethod == 1 && token.Some? && callValue == 0 && callTokenValue == 0
      && Room(Numeral(BigEndian(call.value), 10), token.value.decimals) <= 100
      && SwapMatches(v, BigEndian(call.value), token.value.decimals, token.value.ticker, env.base58(call.to))
    case _ => false
  }

  /** The contents that are signed in a swap. */
  predicate Releasable(env: Env, v: Validated, c: TxContent) {
    && c.dataBytes == 0 && 0 <= c.permissionId <= 9 && c.feeLimit <= MAX_SWAP_FEE_LIMIT
    && SwapDetail(env, v, c.detail)
  }

  lemma {:induction false} CappedFeePrints(fee: u64)
    requires fee <= MAX_SWAP_FEE_LIMIT
    ensures PrintSpec(fee, MAX_FEE_SIZE, SUN_DIG).Text?
  {
    assert Pow(10, 3) == 1000;
    PowAdd(10, 3, 3);
    PowAdd(10, 6, 3);
    PowMonotone(10, 9, 19);
    if fee > 0 {
      PrintMatchesNumeral(fee, MAX_FEE_SIZE, SUN_DIG);
    }
  }

  lemma {:induction false} ShowSigns(env: Env, mode: Mode, st: State, text: string, ticker: string, action: string,
                                     to: string)
    requires mode.InSwap?
    ensures Show(env, mode, st, text, ticker, action, to).1.Signature? <==>
            env.sign(st.path, st.hash).Some? && st.content.feeLimit <= MAX_SWAP_FEE_LIMIT &&
            Swap.Valid(mode.validated, mode.printable, text, ticker, action, to)
  {}

  lemma {:induction false} TransferSigns(env: Env, mode: Mode, st: State)
    requires mode.InSwap? && Stored(mode.validated)
    requires st.content.detail.Transfer?
    ensures
      var d := st.content.detail;
      ShowTransfer(env, mode, st).1.Signature? <==>
      && Ready(mode.validated, mode.printable) && env.sign(st.path, st.hash).Some?
      && st.content.feeLimit <= MAX_SWAP_FEE_LIMIT && 0 < d.amount < Pow(10, 19)
      && SwapMatches(mode.validated, d.amount, SUN_DIG, "TRX", env.base58(d.to))
  {
    var d := st.content.detail;
    if d.amount > 0 {
      PrintMatchesNumeral(d.amount, LINE, SUN_DIG);
    }
    if PrintSpec(d.amount, LINE, SUN_DIG).Text? {
      ShowSigns(env, mode, st, PrintSpec(d.amount, LINE, SUN_DIG).text, "TRX", "To", env.base58(d.to));
      TransferValidIff(mode.validated, mode.printable, d.amount, env.base58(d.to));
    }
  }

  lemma {:induction false} TokenSigns(env: Env, mode: Mode, st: State)
    requires mode.InSwap? && Stored(mode.validated)
    requires st.content.detail.Trigger? && st.content.detail.call.trcMethod == 1 && st.content.detail.token.Some?
    ensures
      var d := st.content.detail;
      var value, token := BigEndian(d.call.value), d.token.value;
      ShowToken(env, mode, st).1.Signature? <==>
      && Ready(mode.validated, mode.printable) && env.sign(st.path, st.hash).Some?
      && st.content.feeLimit <= MAX_SWAP_FEE_LIMIT && d.callValue == 0 && d.callTokenValue == 0
      && Room(Numeral(value, 10), token.decimals) <= LINE
      && SwapMatches(mode.validated, value, token.decimals, token.ticker, env.base58(d.call.to))
  {
    var d := st.content.detail;
    var value, token := BigEndian(d.call.value), d.token.value;
    if st.content.feeLimit <= MAX_SWAP_FEE_LIMIT {
      CappedFeePrints(st.content.feeLimit);
    }
    ShowSigns(env, mode, st, Adjusted(Numeral(value, 10), token.decimals), token.ticker, "To", env.base58(d.call.to));
    TokenValidIff(mode.validated, mode.printable, value, token.decimals, token.ticker, env.base58(d.call.to));
  }

  /**
   * A finished swap transaction is signed if and only if something was validated whose amount fits, the keys sign,
   * and it is a TRX transfer or a known token's transfer that matches what was validated, within the limits on fee,
   * data and permission.
   */
  lemma {:induction false} SwapReleaseIff(env: Env, mode: Mode, settings: Settings, st: State)
    requires mode.InSwap? && Stored(mode.validated) && WellShaped(st.content)
    ensures Finalize(env, mode, settings, st).1.Signature? <==>
            && Ready(mode.validated, mode.printable) && env.sign(st.path, env.sha256(st.hashed)).Some?
            && Releasable(env, mode.validated, st.content)
  {
    var st1 := st.(hash := env.sha256(st.hashed));
    if SwapKind(st.content) {
      if st.content.detail.Transfer? {
        TransferSigns(env, mode, st1);
      } else {
        TokenSigns(env, mode, st1);
      }
    }
  }

  /** The reply to a finished content in a swap, with the reason for every refusal. */
  predicate SwapVerdict(env: Env, mode: Mode, settings: Settings, path: seq<nat>, hash: seq<byte>, c: TxContent,
                        r: Reply)
    requires mode.InSwap? && WellShaped(c)
  {
    var token := c.detail.Trigger? && c.detail.call.trcMethod == 1;
    if c.dataBytes != 0 && !settings.dataAllowed then r == Sw(0x6A8B)
    else if c.permissionId < 0 || c.permissionId > 9 then r == Sw(0x6A80)
    else if !(c.detail.Transfer? || token) || c.dataBytes != 0 then r == Sw(0x6A8E)
    else if token && (c.detail.callValue != 0 || c.detail.callTokenValue != 0) then r == Sw(0x6A80)
    else if token && Room(Numeral(BigEndian(c.detail.call.value), 10), c.detail.token.value.decimals) > 100 then
      r == Sw(0x6700)
    else if (if token then c.feeLimit else c.detail.amount) >= Pow(10, 19) then r.Silent?
    else if !Ready(mode.validated, mode.printable) || !Releasable(env, mode.validated, c) then r == Sw(0x6A8E)
    else if env.sign(path, hash).None? then r == Sw(0x6982)
    else r == Signature(env.sign(path, hash).value)
  }

  lemma {:induction false} TransferSwapVerdict(env: Env, mode: Mode, settings: Settings, st: State)
    requires mode.InSwap? && Stored(mode.validated) && WellShaped(st.content) && st.content.detail.Transfer?
    requires st.content.dataBytes == 0 && 0 <= st.content.permissionId <= 9
    ensures SwapVerdict(env, mode, settings, st.path, st.hash, st.content, ShowTransfer(env, mode, st).1)
  {
    var d := st.content.detail;
    PowPositive(10, 19);
    TransferSigns(env, mode, st);
    if d.amount > 0 {
      PrintMatchesNumeral(d.amount, LINE, SUN_DIG);
    }
    if PrintSpec(d.amount, LINE, SUN_DIG).Text? {
      ShowSigns(env, mode, st, PrintSpec(d.amount, LINE, SUN_DIG).text, "TRX", "To", env.base58(d.to));
      TransferValidIff(mode.validated, mode.printable, d.amount, env.base58(d.to));
    }
  }

  lemma {:induction false} TokenSwapVerdict(env: Env, mode: Mode, settings: Settings, st: State)
    requires mode.InSwap? && Stored(mode.validated) && WellShaped(st.content)
    requires st.content.detail.Trigger? && st.content.detail.call.trcMethod == 1
    requires st.content.dataBytes == 0 && 0 <= st.content.permissionId <= 9
    ensures SwapVerdict(env, mode, settings, st.path, st.hash, st.content, ShowToken(env, mode, st).1)
  {
    var d := st.content.detail;
    var value, token := BigEndian(d.call.value), d.token.value;
    PowPositive(10, 19);
    if st.content.feeLimit > 0 {
      PrintMatchesNumeral(st.content.feeLimit, MAX_FEE_SIZE, SUN_DIG);
    }
    TokenSigns(env, mode, st);
    ShowSigns(env, mode, st, Adjusted(Numeral(value, 10), token.decimals), token.ticker, "To", env.base58(d.call.to));
    TokenValidIff(mode.validated, mode.printable, value, token.decimals, token.ticker, env.base58(d.call.to));
  }

  /** In a swap every finished content is answered by this verdict. */
  lemma {:induction false} FinalSwapVerdict(env: Env, mode: Mode, settings: Settings, st: State)
    requires mode.InSwap? && Stored(mode.validated) && WellShaped(st.content)
    ensures
      SwapVerdict(env, mode, settings, st.path, env.sha256(st.hashed), st.content,
                  Finalize(env, mode, settings, st).1)
  {
    var c, st1 := st.content, st.(hash := env.sha256(st.hashed));
    if c.dataBytes == 0 && 0 <= c.permissionId <= 9 {
      if c.detail.Transfer? {
        TransferSwapVerdict(env, mode, settings, st1);
      } else if c.detail.Trigger? && c.detail.call.trcMethod == 1 {
        TokenSwapVerdict(env, mode, settings, st1);
      }
    }
  }

  // When a run signs

  /** The payloads that are signed in a swap, by what they say. */
  predicate SwapPayload(env: Env, v: Validated, chunk: seq<byte>) {
    && Carries(chunk) && DetailIn(env, chunk).Some? && SwapDetail(env, v, DetailIn(env, chunk).value)
    && DataIn([chunk]) == 0 && 0 <= PermissionIn(chunk) <= 9 && Fee(chunk) <= 100_000_000
  }

  lemma {:induction false} OneChunk(chunk: seq<byte>)
    requires ChunkTx(chunk).Some?
    ensures DataIn([chunk]) == DataBytes(ChunkTx(chunk).value.data, 0)
  {
    Append([], chunk);
    assert [] + [chunk] == [chunk];
  }

  /** A chunk is accepted with a releasable content exactly when it is such a payload, whatever the settings. */
  lemma {:induction false} PayloadContent(env: Env, v: Validated, allowed: bool, chunk: seq<byte>)
    ensures
      var (status, content) := ProcessTx(env, allowed, EMPTY, chunk);
      status.Processing? && Releasable(env, v, content) <==> SwapPayload(env, v, chunk)
  {
    if chunk == [] {
      EmptyChunk();
    } else if ChunkTx(chunk).Some? {
      OneChunk(chunk);
    }
  }

  /** The payload of the command that opens the session. */
  lemma {:induction false} FirstPayload(env: Env, mode: Mode, settings: Settings, st: State, p1: nat, chunk: seq<byte>)
    requires mode.InSwap? && Stored(mode.validated) && Opens(p1)
    requires st.initialized && !st.swapReady && st.hashed == [] && st.content == EMPTY
    ensures Process(env, mode, settings, st, p1, chunk).1.Signature? <==>
            && p1 == P1_SIGN && Ready(mode.validated, mode.printable) && SwapPayload(env, mode.validated, chunk)
            && env.sign(st.path, env.sha256(chunk)).Some?
  {
    var (status, content) := ProcessTx(env, settings.dataAllowed, EMPTY, chunk);
    PayloadContent(env, mode.validated, settings.dataAllowed, chunk);
    assert [] + chunk == chunk;
    if status.Processing? {
      EmptySummary(env);
      AcceptChunk(env, settings.dataAllowed, [], EMPTY, chunk);
      ContentShape(env, [] + [chunk], content);
      SwapReleaseIff(env, mode, settings, Advanced(st, mode, chunk, content));
    }
  }

  /** The commands that are answered by a signature: a whole session in one, for a transfer as validated. */
  predicate SwapCommand(env: Env, mode: Mode, e: Event)
    requires mode.InSwap?
  {
    && Begins(e) && e.p1 == 0x10 && Ready(mode.validated, mode.printable)
    && SwapPayload(env, mode.validated, Payload(e.data))
    && env.sign(ReadPath(e.data, []).1, env.sha256(Payload(e.data))).Some?
  }

  lemma {:induction false} FreshSigns(env: Env, mode: Mode, st: State, e: Event)
    requires mode.InSwap? && Stored(mode.validated) && Fresh(st) && Begins(e)
    ensures Step(env, mode, st, e).1.Signature? <==> SwapCommand(env, mode, e)
  {
    var st1 := Init(st.(path := ReadPath(e.data, []).1));
    BeginStep(env, mode, st, e);
    FirstPayload(env, mode, e.settings, st1, e.p1, Payload(e.data));
  }

  /**
   * Every step of every swap is answered by a signature if and only if no session was opened before, the command
   * opens one and completes it, its payload is a transfer as validated, and the keys sign. The signature is over
   * that one payload.
   */
  lemma {:induction false} SwapSignsIff(env: Env, mode: Mode, events: seq<Event>, e: Event)
    requires mode.InSwap? && Stored(mode.validated)
    ensures
      var (st, h) := Run(env, mode, events);
      var r := Step(env, mode, st, e).1;
      && (r.Signature? <==> NoneBegins(events) && SwapCommand(env, mode, e))
      && (r.Signature? ==> Signed(h, e, r) == [Payload(e.data)])
  {
    OnlyPayload(env, mode, events, e);
    SwapOpening(env, mode, events);
    if NoneBegins(events) && Begins(e) {
      FreshSigns(env, mode, Run(env, mode, events).0, e);
    }
  }

  // From the exchange's parameters to the signature

  /** Amount, decimals and recipient of a contract that moves a token. */
  function Moved(env: Env, d: Detail): (nat, nat, string) {
    match d
    case Transfer(_, to, amount) => (amount, SUN_DIG, env.base58(to))
    case Trigger(_, _, call, _, _, _, Some(token)) => (BigEndian(call.value), token.decimals, env.base58(call.to))
    case _ => (0, 0, "")
  }

  /** Decimals and ticker of the swapped coin: those of the configuration, or those of TRX. */
  function Coin(p: Parameters): (string, nat) {
    if p.config.Some? && p.config.value.Some? then p.config.value.value else ("TRX", SUN_DIG)
  }

  /** A payload that a signature covers in a swap moves what was validated. */
  lemma {:induction false} CoveredMoves(env: Env, mode: Mode, path: seq<nat>, chunk: seq<byte>, bytes: seq<byte>)
    requires mode.InSwap? && Stored(mode.validated) && Covers(env, mode, path, [chunk], bytes)
    ensures Carries(chunk) && DetailIn(env, chunk).Some?
    ensures
      var (amount, decimals, to) := Moved(env, DetailIn(env, chunk).value);
      && amount * Pow(10, mode.validated.decimals) == mode.validated.amount * Pow(10, decimals)
      && to == mode.validated.recipient
  {
    assert Carrier([chunk]) == chunk;
  }

  /**
   * Every signature of every run that the exchange starts is over one payload, which moves the amount in the
   * exchange's parameters, as a rational, to the address in its parameters.
   */
  lemma {:induction false} ExchangeSignature(env: Env, p: Parameters, printable: size, events: seq<Event>, e: Event)
    requires p.amount.Some? ==> |p.amount.value| <= 32
    requires CopyParameters(p).Some? && |Coin(p).0| < MAX_SWAP_TOKEN_LENGTH
    ensures
      var mode := InSwap(CopyParameters(p).value, printable);
      var (st, h) := Run(env, mode, events);
      var r := Step(env, mode, st, e).1;
      r.Signature? ==>
        && e.Apdu? && Signed(h, e, r) == [Payload(e.data)]
        && Carries(Payload(e.data)) && DetailIn(env, Payload(e.data)).Some?
        && var (amount, decimals, to) := Moved(env, DetailIn(env, Payload(e.data)).value);
           amount * Pow(10, Coin(p).1) == BigEndian(p.amount.value) * Pow(10, decimals) && to == p.destination.value
  {
    var mode := InSwap(CopyParameters(p).value, printable);
    var (st, h) := Run(env, mode, events);
    var (st', r) := Step(env, mode, st, e);
    SignatureCovers(env, mode, events, e);
    if r.Signature? {
      CoveredMoves(env, mode, st'.path, Payload(e.data), r.bytes);
    }
  }
}
