/**
 * Whole runs from the bytes that are sent: what is shown for them, and what the device signs besides, under a path
 * that it refused and with two Contract messages at once.
 */
module Witnesses {
  import opened Arith
  import opened Varints
  import opened Schema
  import opened Wire
  import opened Radix
  import opened Decimal
  import opened Transaction
  import opened Chunks
  import opened Swap
  import opened Session
  import opened Runs
  import opened Paths
  import opened SwapRuns
  import opened Format
  import opened Payloads
  import opened Reviews

  // A Contract message without a parameter

  /** A chunk with a Contract message that says nothing but its type. */
  function BareBytes(kind: nat): seq<byte> {
    StringRecord(11, NumberRecord(1, kind) + []) + []
  }

  lemma {:induction false} BareDecodes(kind: u32)
    ensures Decode(CONTRACT, NumberRecord(1, kind) + []) == Some(ContractSlots(kind, None, 0))
  {
    DefaultContract();
    Ranges(4);
    NumberLeads(CONTRACT, DefaultSlots(CONTRACT), 0, kind, kind, []);
    assert ContractSlots(0, None, 0)[0 := One(IntV(kind))] == ContractSlots(kind, None, 0);
  }

  lemma {:induction false} BareRead(kind: u32)
    requires |NumberRecord(1, kind) + []| < TWO32
    ensures BareBytes(kind) != [] && ChunkTx(BareBytes(kind)) == Some(Tx([], [Contract(kind, None, 0)], 0))
  {
    var sub := ContractSlots(kind, None, 0);
    RawIsValid();
    DefaultRaw();
    BareDecodes(kind);
    MessageLeads(RAW, DefaultSlots(RAW), 1, NumberRecord(1, kind) + [], sub, []);
    assert FeeOnly(0)[1 := Rep([MsgV(sub)])] == [Calls([]), Rep([MsgV(sub)]), One(IntV(0))];
    OneContractOf(MsgV(sub));
  }

  lemma {:induction false} ShortRecord(kind: u32)
    ensures |NumberRecord(1, kind) + []| < TWO32
  {
    VarintAtMost10(kind);
    VarintAtMost10(8);
  }

  /** Every session takes it, whatever it holds, unless forbidden data already stops it; only the hash changes. */
  lemma {:induction false} BareAccepted(env: Env, settings: Settings, st: State, p1: nat, kind: u32)
    requires st.initialized && (settings.dataAllowed || st.content.dataBytes == 0)
    ensures BareBytes(kind) != [] && Bare(BareBytes(kind))
    ensures ProcessTx(env, settings.dataAllowed, st.content, BareBytes(kind)) == (Processing, st.content)
    ensures p1 == 0x80 ==>
              Process(env, Standalone, settings, st, p1, BareBytes(kind)) ==
              (st.(hashed := st.hashed + BareBytes(kind)), Sw(0x9000))
  {
    ShortRecord(kind);
    BareRead(kind);
  }

  // Steps

  const TRON_PATH: seq<byte> := [2, 0x80, 0, 0, 0x2C, 0x80, 0, 0, 0xC3]
  const FOREIGN_PATH: seq<byte> := [2, 0, 0, 0, 0, 0, 0, 0, 0]

  lemma {:induction false} TwoIndices(data: seq<byte>)
    requires |data| >= 9 && data[0] == 2
    ensures StoresPath(data)
    ensures PathIn(data) ==
            [Spelled(data[1], data[2], data[3], data[4]), Spelled(data[5], data[6], data[7], data[8])]
  {
    IndexAt(data[1..], 2, 0);
    IndexAt(data[1..], 2, 1);
  }

  lemma {:induction false} TronPath(data: seq<byte>, chunk: seq<byte>, path: seq<nat>)
    requires data == TRON_PATH + chunk
    ensures ReadPath(data, path) == (Some(9), PREFIX) && Payload(data) == data[9..] == chunk
  {
    TwoIndices(data);
    ReadPathStores(data, path);
  }

  lemma {:induction false} ForeignPath(path: seq<nat>)
    ensures ReadPath(FOREIGN_PATH, path) == (None, [0, 0])
  {
    TwoIndices(FOREIGN_PATH);
    ReadPathStores(FOREIGN_PATH, path);
  }

  /** A chunk that opens a session with a content that may be reviewed. */
  predicate Proposes(env: Env, settings: Settings, chunk: seq<byte>, c: TxContent) {
    && ProcessTx(env, settings.dataAllowed, EMPTY, chunk) == (Processing, c)
    && WellShaped(c) && Reviewable(env, settings, c)
  }

  /** A session that has taken it, and any further bytes. */
  function Collected(path: seq<nat>, hashed: seq<byte>, c: TxContent): State {
    Init(BOOT).(path := path, hashed := hashed, content := c)
  }

  /** The same with its review on the screen. */
  function Displayed(env: Env, path: seq<nat>, hashed: seq<byte>, c: TxContent): State {
    Collected(path, hashed, c).(hash := env.sha256(hashed), pending := true)
  }

  lemma {:induction false} FirstCommand(env: Env, settings: Settings, data: seq<byte>, chunk: seq<byte>, c: TxContent)
    requires data == TRON_PATH + chunk && Proposes(env, settings, chunk, c)
    ensures Step(env, Standalone, BOOT, Apdu(0x00, 0, data, settings)) == (Collected(PREFIX, chunk, c), Sw(0x9000))
  {
    TronPath(data, chunk, []);
    BeginStep(env, Standalone, BOOT, Apdu(0x00, 0, data, settings));
    assert [] + chunk == chunk;
  }

  lemma {:induction false} SecondCommand(env: Env, settings: Settings, st: State)
    requires !st.pending && !st.ended
    ensures Step(env, Standalone, st, Apdu(0x00, 0, FOREIGN_PATH, settings)) == (st.(path := [0, 0]), Sw(0x6A8A))
  {
    ForeignPath(st.path);
  }

  lemma {:induction false} FinalizeReviewed(env: Env, settings: Settings, path: seq<nat>, hashed: seq<byte>,
                                            c: TxContent)
    requires WellShaped(c) && Reviewable(env, settings, c)
    ensures
      var (st', r) := Finalize(env, Standalone, settings, Collected(path, hashed, c));
      st' == Displayed(env, path, hashed, c) && r.Review?
  {
    var st := Collected(path, hashed, c);
    FinalVerdict(env, settings, st);
    ReviewableIff(env, settings, c, Finalize(env, Standalone, settings, st).1);
    FinalizeOutcome(env, Standalone, settings, st);
  }

  /** The last command of the session, empty or with another Contract message. */
  lemma {:induction false} LastCommand(env: Env, settings: Settings, path: seq<nat>, hashed: seq<byte>, c: TxContent,
                                       data: seq<byte>, kind: u32)
    requires WellShaped(c) && Reviewable(env, settings, c) && (data == [] || data == BareBytes(kind))
    ensures
      var (st', r) := Step(env, Standalone, Collected(path, hashed, c), Apdu(0x90, 0, data, settings));
      st' == Displayed(env, path, hashed + data, c) && r.Review?
  {
    BareAccepted(env, settings, Collected(path, hashed, c), 0x90, kind);
    FinalizeReviewed(env, settings, path, hashed + data, c);
    assert hashed + [] == hashed;
  }

  lemma {:induction false} Confirmed(env: Env, path: seq<nat>, hashed: seq<byte>, c: TxContent)
    requires env.sign(path, env.sha256(hashed)).Some?
    ensures Step(env, Standalone, Displayed(env, path, hashed, c), Confirm).1 ==
            Signature(env.sign(path, env.sha256(hashed)).value)
  {}

  // Runs

  lemma {:induction false} RunThree(env: Env, a: Event, b: Event, c: Event, st1: State, st2: State)
    requires Step(env, Standalone, BOOT, a).0 == st1 && Step(env, Standalone, st1, b).0 == st2
    ensures Run(env, Standalone, [a, b, c]).0 == Step(env, Standalone, st2, c).0
  {
    RunNext(env, [], a, BOOT);
    RunNext(env, [a], b, st1);
    RunNext(env, [a, b], c, st2);
    assert [] + [a] == [a] && [a] + [b] == [a, b] && [a, b] + [c] == [a, b, c];
  }

  lemma {:induction false} RunNext(env: Env, before: seq<Event>, e: Event, st: State)
    requires Run(env, Standalone, before).0 == st
    ensures Run(env, Standalone, before + [e]).0 == Step(env, Standalone, st, e).0
  {
    assert (before + [e])[..|before + [e]| - 1] == before;
  }

  lemma {:induction false} RunOne(env: Env, e: Event)
    ensures
      var (st, r) := Step(env, Standalone, BOOT, e);
      Run(env, Standalone, [e]) == (st, Observe([], e, r))
  {
    assert [e][..0] == [];
    assert Run(env, Standalone, []) == (BOOT, []);
  }

  /** A device that refused a path still signs with it, whatever was proposed. */
  lemma {:induction false} ForeignSignature(env: Env, settings: Settings, chunk: seq<byte>, c: TxContent)
    requires Proposes(env, settings, chunk, c) && env.sign([0, 0], env.sha256(chunk)).Some?
    ensures
      var events := [Apdu(0x00, 0, TRON_PATH + chunk, settings), Apdu(0x00, 0, FOREIGN_PATH, settings),
                     Apdu(0x90, 0, [], settings)];
      var st := Run(env, Standalone, events).0;
      && Step(env, Standalone, st, Confirm).1 == Signature(env.sign([0, 0], env.sha256(chunk)).value)
      && st.path == [0, 0] && !(PREFIX <= st.path)
  {
    var data := TRON_PATH + chunk;
    FirstCommand(env, settings, data, chunk, c);
    SecondCommand(env, settings, Collected(PREFIX, chunk, c));
    LastCommand(env, settings, [0, 0], chunk, c, [], 0);
    assert chunk + [] == chunk;
    RunThree(env, Apdu(0x00, 0, data, settings), Apdu(0x00, 0, FOREIGN_PATH, settings), Apdu(0x90, 0, [], settings),
             Collected(PREFIX, chunk, c), Collected([0, 0], chunk, c));
    Confirmed(env, [0, 0], chunk, c);
  }

  /** A signature over two Contract messages, of which the review showed one. */
  lemma {:induction false} TwoContracts(env: Env, settings: Settings, chunk: seq<byte>, c: TxContent, kind: u32)
    requires Proposes(env, settings, chunk, c) && Carries(chunk)
    requires env.sign(PREFIX, env.sha256(chunk + BareBytes(kind))).Some?
    ensures
      var events := [Apdu(0x00, 0, TRON_PATH + chunk, settings), Apdu(0x90, 0, BareBytes(kind), settings)];
      var (st, h) := Run(env, Standalone, events);
      var r := Step(env, Standalone, st, Confirm).1;
      && r == Signature(env.sign(PREFIX, env.sha256(chunk + BareBytes(kind))).value)
      && Signed(h, Confirm, r) == [chunk, BareBytes(kind)] && Contracts([chunk, BareBytes(kind)]) == 2
  {
    var data := TRON_PATH + chunk;
    var a, b := Apdu(0x00, 0, data, settings), Apdu(0x90, 0, BareBytes(kind), settings);
    FirstCommand(env, settings, data, chunk, c);
    LastCommand(env, settings, PREFIX, chunk, c, BareBytes(kind), kind);
    RunOne(env, a);
    TronPath(data, chunk, []);
    assert [a, b][..1] == [a];
    assert [chunk] + [BareBytes(kind)] == [chunk, BareBytes(kind)];
    Confirmed(env, PREFIX, chunk + BareBytes(kind), c);
    CountTwo(chunk, kind);
  }

  lemma {:induction false} CountTwo(chunk: seq<byte>, kind: u32)
    requires Carries(chunk)
    ensures Contracts([chunk, BareBytes(kind)]) == 2
  {
    var h := [chunk, BareBytes(kind)];
    ShortRecord(kind);
    BareRead(kind);
    OneContract(chunk);
    assert h[..1] == [chunk] && [chunk][..0] == [];
    assert Contracts([chunk]) == 1;
  }

  // From the bytes of a transaction to what is shown and signed

  /** A transfer of TRX, and the call of a known token. */
  predicate TransferOrder(o: Order, owner: seq<byte>, to: seq<byte>, amount: u64) {
    Sendable(o) && o.kind == 1 && |owner| == 21 && |to| == 21 && o.payload == TransferBytes(owner, to, amount)
  }

  predicate TokenOrder(o: Order, owner: seq<byte>, contract: seq<byte>, selector: seq<byte>, pad: seq<byte>,
                       to: seq<byte>, value: Word32) {
    && Sendable(o) && o.kind == 31 && |owner| == 21 && |contract| == 21 && |pad| == 12 && |to| == 20
    && (selector == [0xA9, 0x05, 0x9C, 0xBB] || selector == [0x09, 0x5E, 0xA7, 0xB3])
    && o.payload == TriggerBytes(owner, contract, 0, selector + (pad + (to + value)), 0, 0)
  }

  function NoteSize(o: Order): nat {
    if o.note.Some? then |o.note.value| else 0
  }

  function OrderContent(o: Order, d: Detail): TxContent {
    TxContent(o.kind, true, o.permission, NoteSize(o), o.fee, o.fee != 0, d)
  }

  /** What the settings and the screen demand of an order, beside its contract. */
  predicate Orderly(settings: Settings, o: Order) {
    (NoteSize(o) == 0 || settings.dataAllowed) && 0 <= o.permission <= 9
  }

  lemma {:induction false} OrderCarries(env: Env, o: Order, d: Detail)
    requires Sendable(o) && o.payload != [] && DetailOf(env, o.kind, o.payload) == Some(d)
    ensures Carries(OrderBytes(o)) && DetailIn(env, OrderBytes(o)) == Some(d)
    ensures KindIn(OrderBytes(o)) == o.kind && PermissionIn(OrderBytes(o)) == o.permission
    ensures Fee(OrderBytes(o)) == o.fee && OrderBytes(o) != []
  {
    OrderRead(o);
    RecordBytes(1, o.refBlock);
  }

  lemma {:induction false} RecordBytes(tag: nat, s: seq<byte>)
    ensures StringRecord(tag, s) != []
  {}

  lemma {:induction false} TransferDetailOf(env: Env, o: Order, owner: seq<byte>, to: seq<byte>, amount: u64)
    requires TransferOrder(o, owner, to, amount)
    ensures o.payload != [] && DetailOf(env, o.kind, o.payload) == Some(Transfer(owner, to, amount))
  {
    TransferRead(owner, to, amount);
    RecordBytes(1, owner);
  }

  lemma {:induction false} OrderProposes(env: Env, settings: Settings, o: Order, d: Detail)
    requires Sendable(o) && o.payload != [] && DetailOf(env, o.kind, o.payload) == Some(d) && Orderly(settings, o)
    requires WellShaped(OrderContent(o, d)) && Reviewable(env, settings, OrderContent(o, d))
    ensures Proposes(env, settings, OrderBytes(o), OrderContent(o, d))
  {
    OrderRecorded(env, settings.dataAllowed, o);
  }

  lemma {:induction false} TokenDetailOf(env: Env, o: Order, owner: seq<byte>, contract: seq<byte>,
                                         selector: seq<byte>, pad: seq<byte>, to: seq<byte>, value: Word32)
    requires TokenOrder(o, owner, contract, selector, pad, to, value) && env.knownToken(contract).Some?
    ensures
      var call := TokenCall(selector, if selector[0] == 0xA9 then 1 else 2, [0x41] + to, value);
      && o.payload != []
      && DetailOf(env, o.kind, o.payload) ==
         Some(Trigger(owner, contract, call, 0, 0, 0, env.knownToken(contract)))
  {
    KnownCallRead(NO_CALL, selector, pad, to, value);
    TriggerRead(env, owner, contract, 0, selector + (pad + (to + value)), 0, 0);
    RecordBytes(1, owner);
  }

  /** The review of a proposal that comes in one command. */
  lemma {:induction false} OneCommand(env: Env, settings: Settings, data: seq<byte>, chunk: seq<byte>, c: TxContent,
                                      d: Detail)
    requires data == TRON_PATH + chunk && Proposes(env, settings, chunk, c) && chunk != []
    requires Carries(chunk) && DetailIn(env, chunk) == Some(d)
    ensures
      var r := Step(env, Standalone, BOOT, Apdu(0x10, 0, data, settings)).1;
      r.Review? && Shows(env, d, r.display)
  {
    var e := Apdu(0x10, 0, data, settings);
    var r := Step(env, Standalone, BOOT, e).1;
    TronPath(data, chunk, []);
    ReviewIff(env, [], e);
    ReviewShowsPayloads(env, Standalone, [], e);
    assert Observe([], e, r) == [chunk];
    assert Carrier([chunk]) == chunk;
  }

  /** A transfer that is sent in one command is shown with its amount and its recipient. */
  lemma {:induction false} TransferReviewed(env: Env, settings: Settings, o: Order, owner: seq<byte>, to: seq<byte>,
                                            amount: u64)
    requires TransferOrder(o, owner, to, amount) && Orderly(settings, o) && amount < Pow(10, 19)
    ensures
      var r := Step(env, Standalone, BOOT, Apdu(0x10, 0, TRON_PATH + OrderBytes(o), settings)).1;
      r.Review? && ShowsAmount(r.display, amount, 6, "TRX", "To", env.base58(to))
  {
    var d := Transfer(owner, to, amount);
    TransferDetailOf(env, o, owner, to, amount);
    OrderShown(env, settings, o, d);
  }

  lemma {:induction false} TokenContent(env: Env, settings: Settings, o: Order, d: Detail)
    requires o.kind == 31 && Orderly(settings, o) && o.fee < Pow(10, 19) && d.Trigger? && d.token.Some?
    requires d.call.trcMethod != 0 && d.callValue == 0 && d.callTokenValue == 0
    requires Room(Numeral(BigEndian(d.call.value), 10), d.token.value.decimals) <= 100
    ensures WellShaped(OrderContent(o, d)) && Reviewable(env, settings, OrderContent(o, d))
  {}

  lemma {:induction false} OrderShown(env: Env, settings: Settings, o: Order, d: Detail)
    requires Sendable(o) && o.payload != [] && DetailOf(env, o.kind, o.payload) == Some(d) && Orderly(settings, o)
    requires WellShaped(OrderContent(o, d)) && Reviewable(env, settings, OrderContent(o, d))
    ensures
      var r := Step(env, Standalone, BOOT, Apdu(0x10, 0, TRON_PATH + OrderBytes(o), settings)).1;
      r.Review? && Shows(env, d, r.display)
  {
    OrderCarries(env, o, d);
    OrderProposes(env, settings, o, d);
    OneCommand(env, settings, TRON_PATH + OrderBytes(o), OrderBytes(o), OrderContent(o, d), d);
  }

  /** So is the call of a known token, with the amount, action and recipient in its data. */
  lemma {:induction false} TokenReviewed(env: Env, settings: Settings, o: Order, owner: seq<byte>, contract: seq<byte>,
                                         selector: seq<byte>, pad: seq<byte>, to: seq<byte>, value: Word32)
    requires TokenOrder(o, owner, contract, selector, pad, to, value) && env.knownToken(contract).Some?
    requires Orderly(settings, o) && o.fee < Pow(10, 19)
    requires Room(Numeral(BigEndian(value), 10), env.knownToken(contract).value.decimals) <= 100
    ensures
      var r := Step(env, Standalone, BOOT, Apdu(0x10, 0, TRON_PATH + OrderBytes(o), settings)).1;
      var token := env.knownToken(contract).value;
      && r.Review?
      && ShowsAmount(r.display, BigEndian(value), token.decimals, token.ticker,
                     if selector[0] == 0xA9 then "To" else "Allow", env.base58([0x41] + to))
  {
    var call := TokenCall(selector, if selector[0] == 0xA9 then 1 else 2, [0x41] + to, value);
    var d := Trigger(owner, contract, call, 0, 0, 0, env.knownToken(contract));
    TokenDetailOf(env, o, owner, contract, selector, pad, to, value);
    TokenContent(env, settings, o, d);
    OrderShown(env, settings, o, d);
  }

  lemma {:induction false} SwapOrder(env: Env, v: Validated, o: Order, owner: seq<byte>, to: seq<byte>, amount: u64)
    requires TransferOrder(o, owner, to, amount) && NoteSize(o) == 0
    ensures SwapPayload(env, v, OrderBytes(o)) <==>
            && 0 < amount < Pow(10, 19) && o.fee <= 100_000_000 && 0 <= o.permission <= 9
            && amount * Pow(10, v.decimals) == v.amount * 1_000_000 && v.ticker == "TRX" &&
               v.recipient == env.base58(to)
  {
    TransferDetailOf(env, o, owner, to, amount);
    OrderCarries(env, o, Transfer(owner, to, amount));
    OrderRead(o);
    OneChunk(OrderBytes(o));
    RationalMatches(v, amount, SUN_DIG, "TRX", env.base58(to));
    assert Pow(10, 6) == 1_000_000;
  }

  lemma {:induction false} SwapCommandIs(env: Env, mode: Mode, settings: Settings, data: seq<byte>, chunk: seq<byte>)
    requires mode.InSwap? && data == TRON_PATH + chunk
    ensures SwapCommand(env, mode, Apdu(0x10, 0, data, settings)) <==>
            && Ready(mode.validated, mode.printable) && SwapPayload(env, mode.validated, chunk)
            && env.sign(PREFIX, env.sha256(chunk)).Some?
  {
    TronPath(data, chunk, []);
  }

  /** In a swap, a transfer without a note is signed exactly when it is the validated one, within the fee cap. */
  lemma {:induction false} SwapSigned(env: Env, mode: Mode, settings: Settings, o: Order, owner: seq<byte>,
                                      to: seq<byte>, amount: u64)
    requires mode.InSwap? && Stored(mode.validated) && Ready(mode.validated, mode.printable)
    requires TransferOrder(o, owner, to, amount) && NoteSize(o) == 0
    requires env.sign(PREFIX, env.sha256(OrderBytes(o))).Some?
    ensures
      var v := mode.validated;
      Step(env, mode, BOOT, Apdu(0x10, 0, TRON_PATH + OrderBytes(o), settings)).1.Signature? <==>
        && 0 < amount < Pow(10, 19) && o.fee <= 100_000_000 && 0 <= o.permission <= 9
        && amount * Pow(10, v.decimals) == v.amount * 1_000_000 && v.ticker == "TRX" && v.recipient == env.base58(to)
  {
    var data := TRON_PATH + OrderBytes(o);
    SwapOrder(env, mode.validated, o, owner, to, amount);
    SwapCommandIs(env, mode, settings, data, OrderBytes(o));
    SwapSignsIff(env, mode, [], Apdu(0x10, 0, data, settings));
  }
}
