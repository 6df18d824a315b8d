/** When exactly a review is shown, and why a command is refused, in terms of what was recorded. */
module Reviews {
  import opened Arith
  import opened Schema
  import opened Radix
  import opened Decimal
  import opened Amount
  import opened Transaction
  import opened Chunks
  import opened Swap
  import opened Session
  import opened Runs

  // Accepting a payload

  /** What a payload must be to be accepted on top of others. */
  ghost predicate Acceptable(env: Env, allowed: bool, h: seq<seq<byte>>, chunk: seq<byte>) {
    && ChunkTx(chunk).Some?
    && (Fee(chunk) != 0 ==> forall x :: x in h ==> Fee(x) == 0 || Fee(x) == Fee(chunk))
    && (DataIn(h + [chunk]) != 0 ==> allowed)
    && (Carries(chunk) ==> Carriers(h) == 0 && DetailIn(env, chunk).Some?)
  }

  lemma {:induction false} FeeConflict(h: seq<seq<byte>>, fee: u64, chunk: seq<byte>)
    requires FeeAgrees(h, fee) && Fee(chunk) != 0
    ensures (forall x :: x in h ==> Fee(x) == 0 || Fee(x) == Fee(chunk)) <==> fee == 0 || fee == Fee(chunk)
  {
    if fee != 0 {
      var x :| x in h && Fee(x) == fee;
    }
  }

  lemma {:induction false} DecodedIff(env: Env, allowed: bool, c: TxContent, tx: Tx)
    requires Consistent(c)
    ensures ProcessDecoded(env, allowed, c, tx).0.Processing? <==>
            && (tx.fee != 0 ==> c.feeLimit == 0 || c.feeLimit == tx.fee)
            && (DataBytes(tx.data, c.dataBytes) != 0 ==> allowed)
            && (Parameter(tx).Some? ==>
                  var calls := Parameter(tx).value;
                  && !c.contractSeen && |calls| == 1 && calls[0].inBuffer && calls[0].payload != []
                  && DetailOf(env, tx.contracts[0].kind, calls[0].payload).Some?)
  {}

  /** Of several records of extra data the last one counts. */
  lemma {:induction false} LastDataCounts(data: seq<Call>, last: Call, before: nat)
    ensures DataBytes(data + [last], before) == |last.payload| && DataBytes([], before) == before
  {}

  /**
   * A payload is accepted if and only if it decodes, its fee limit agrees with the others', extra data is allowed
   * or absent, and a contract parameter is the first one and readable.
   */
  lemma {:induction false} AcceptIff(env: Env, allowed: bool, h: seq<seq<byte>>, c: TxContent, chunk: seq<byte>)
    requires Summary(env, h, c)
    ensures ProcessTx(env, allowed, c, chunk).0.Processing? <==> chunk != [] && Acceptable(env, allowed, h, chunk)
  {
    Append(h, chunk);
    if chunk != [] && ChunkTx(chunk).Some? {
      DecodedIff(env, allowed, c, ChunkTx(chunk).value);
      if Fee(chunk) != 0 {
        FeeConflict(h, c.feeLimit, chunk);
      }
    }
  }

  // Finishing a session on the device alone

  /** Extra data is absent or allowed, and the permission is a single digit. */
  predicate Checked(settings: Settings, c: TxContent) {
    (c.dataBytes != 0 ==> settings.dataAllowed) && 0 <= c.permissionId <= 9
  }

  /** The types that are signed by their hash: AccountUpdate, ProposalCreate, ProposalApprove and ProposalDelete. */
  predicate ByHash(c: TxContent) {
    c.contractType in {10, 16, 17, 18}
  }

  /** A call of a known token, which is shown by its amount. */
  predicate KnownCall(c: TxContent) {
    c.detail.Trigger? && c.detail.call.trcMethod != 0
  }

  predicate CustomCall(c: TxContent) {
    c.detail.Trigger? && c.detail.call.trcMethod == 0
  }

  predicate Hidden(c: TxContent)
    requires c.detail.Trigger?
  {
    c.detail.callValue != 0 || c.detail.callTokenValue != 0
  }

  /** The amount of a known token's call leaves no room in its line. */
  predicate TooLong(c: TxContent)
    requires c.detail.Trigger? && c.detail.token.Some?
  {
    Room(Numeral(BigEndian(c.detail.call.value), 10), c.detail.token.value.decimals) > 100
  }

  /** Some amount on the screen has twenty digits. */
  predicate Unprintable(c: TxContent) {
    match c.detail
    case Transfer(_, _, amount) => amount >= Pow(10, 19)
    case Trigger(_, _, call, callValue, callTokenValue, _, _) =>
      || c.feeLimit >= Pow(10, 19)
      || (call.trcMethod == 0 && (callValue >= Pow(10, 19) || Cast64(callTokenValue) >= Pow(10, 19)))
    case _ => false
  }

  lemma {:induction false} ThrownIff(amount: nat, outlen: nat, sun: nat)
    ensures PrintSpec(amount, outlen, sun).Thrown? <==> amount >= Pow(10, 19)
  {
    PowPositive(10, 19);
    if amount > 0 {
      PrintMatchesNumeral(amount, outlen, sun);
    }
  }

  /** The reply to a finished content, by its kind. */
  predicate ShowsVerdict(env: Env, settings: Settings, c: TxContent, r: Reply)
    requires WellShaped(c)
  {
    match c.detail
    case Transfer(_, _, _) => if Unprintable(c) then r.Silent? else r.Review?
    case Trigger(_, _, _, _, _, _, _) =>
      if KnownCall(c) then
        if Hidden(c) then r == Sw(0x6A80) else if TooLong(c) then r == Sw(0x6700)
        else if Unprintable(c) then r.Silent? else r.Review?
      else
        if !settings.customContract then r == Sw(0x6A8D)
        else if c.detail.callValue != 0 && c.detail.callTokenValue != 0 then r == Sw(0x6A80)
        else if Unprintable(c) then r.Silent? else r.Review?
    case _ =>
      if c.contractType == 255 then r == Sw(0x6A80)
      else if ByHash(c) then (if settings.signByHash then r.Review? else r == Sw(0x6A8C))
      else
        match env.screen(c.contractType, c.detail)
        case Shown => r.Review?
        case Refused => r == Sw(0x6A80)
        case Crashed => r.Silent?
  }

  lemma {:induction false} TransferVerdict(env: Env, settings: Settings, st: State)
    requires WellShaped(st.content) && st.content.detail.Transfer?
    ensures ShowsVerdict(env, settings, st.content, ShowTransfer(env, Standalone, st).1)
  {
    ThrownIff(st.content.detail.amount, LINE, SUN_DIG);
  }

  lemma {:induction false} TokenVerdict(env: Env, settings: Settings, st: State)
    requires WellShaped(st.content) && KnownCall(st.content)
    ensures ShowsVerdict(env, settings, st.content, ShowToken(env, Standalone, st).1)
  {
    ThrownIff(st.content.feeLimit, MAX_FEE_SIZE, SUN_DIG);
  }

  lemma {:induction false} CustomVerdict(env: Env, settings: Settings, st: State)
    requires WellShaped(st.content) && CustomCall(st.content)
    ensures ShowsVerdict(env, settings, st.content, ShowCustom(settings, st).1)
  {
    var d := st.content.detail;
    PowPositive(10, 19);
    assert Cast64(0) == 0;
    ThrownIff(st.content.feeLimit, MAX_FEE_SIZE, SUN_DIG);
    ThrownIff(d.callValue, LINE, SUN_DIG);
    ThrownIff(Cast64(d.callTokenValue), LINE, 0);
  }

  /** The reply to a finished content: what stops it, in order, and what is shown otherwise. */
  predicate Verdict(env: Env, settings: Settings, c: TxContent, r: Reply)
    requires WellShaped(c)
  {
    if c.dataBytes != 0 && !settings.dataAllowed then r == Sw(0x6A8B)
    else if c.permissionId < 0 || c.permissionId > 9 then r == Sw(0x6A80)
    else ShowsVerdict(env, settings, c, r)
  }

  lemma {:induction false} FinalVerdict(env: Env, settings: Settings, st: State)
    requires WellShaped(st.content)
    ensures Verdict(env, settings, st.content, Finalize(env, Standalone, settings, st).1)
  {
    var st1 := st.(hash := env.sha256(st.hashed));
    if Checked(settings, st.content) {
      if st.content.detail.Transfer? {
        TransferVerdict(env, settings, st1);
      } else if KnownCall(st.content) {
        TokenVerdict(env, settings, st1);
      } else if CustomCall(st.content) {
        CustomVerdict(env, settings, st1);
      }
    }
  }

  /** The contents that are shown for review. */
  predicate Reviewable(env: Env, settings: Settings, c: TxContent)
    requires WellShaped(c)
  {
    Checked(settings, c) && !Unprintable(c) &&
    match c.detail
    case Transfer(_, _, _) => true
    case Trigger(_, _, _, _, _, _, _) =>
      if KnownCall(c) then !Hidden(c) && !TooLong(c)
      else settings.customContract && (c.detail.callValue == 0 || c.detail.callTokenValue == 0)
    case _ =>
      c.contractType != 255 && if ByHash(c) then settings.signByHash else env.screen(c.contractType, c.detail).Shown?
  }

  lemma {:induction false} ReviewableIff(env: Env, settings: Settings, c: TxContent, r: Reply)
    requires WellShaped(c) && Verdict(env, settings, c, r)
    ensures r.Review? <==> Reviewable(env, settings, c)
  {}

  // Which commands finish a session

  /** The content that a payload completes: as it is when the payload is empty, and with it when it is the last one. */
  function Completing(env: Env, allowed: bool, c: TxContent, last: bool, chunk: seq<byte>): Option<TxContent> {
    if chunk == [] then Some(c)
    else if last && ProcessTx(env, allowed, c, chunk).0.Processing? then Some(ProcessTx(env, allowed, c, chunk).1)
    else None
  }

  /** The commands that may name a token of this content, and those among them that come last. */
  predicate MayName(c: TxContent, p1: nat, last: bool) {
    if c.contractType in {2, 41} then p1 in (if last then {0xA8, 0xA9} else {0xA0, 0xA1})
    else c.contractType in {42, 43, 44} && last && p1 == 0xA8
  }

  /** The content that a command completes. */
  function Completed(env: Env, st: State, e: Event): Option<TxContent> {
    if !e.Apdu? || e.p2 != 0 then None
    else if e.p1 == 0x00 || e.p1 == 0x10 then
      if ReadPath(e.data, []).0.None? then None
      else Completing(env, e.settings.dataAllowed, EMPTY, e.p1 == 0x10, Payload(e.data))
    else if !st.initialized then None
    else if e.p1 == 0x80 || e.p1 == 0x90 then
      Completing(env, e.settings.dataAllowed, st.content, e.p1 == 0x90, e.data)
    else if MayName(st.content, e.p1, true) then
      var named := env.tokenName(st.content.contractType, st.content.detail, e.p1 % 8, e.data);
      if named.ok then Some(Rename(st, named.names).content) else None
    else None
  }

  /** A command gives the verdict on the content that it completes, and shows no review otherwise. */
  predicate Finishes(env: Env, settings: Settings, c: Option<TxContent>, r: Reply) {
    if c.Some? then WellShaped(c.value) && Verdict(env, settings, c.value, r) else !r.Review?
  }

  lemma {:induction false} ProcessFinishes(env: Env, settings: Settings, st: State, h: seq<seq<byte>>, p1: nat,
                                           chunk: seq<byte>)
    requires Open(env, Standalone, st, h) && !st.pending
    ensures
      var c := Completing(env, settings.dataAllowed, st.content, p1 == 0x90 || p1 == 0x10, chunk);
      Finishes(env, settings, c, Process(env, Standalone, settings, st, p1, chunk).1)
  {
    var (status, content) := ProcessTx(env, settings.dataAllowed, st.content, chunk);
    if chunk == [] || status.Processing? {
      AcceptChunk(env, settings.dataAllowed, h, st.content, chunk);
      ContentShape(env, h + [chunk], content);
      FinalVerdict(env, settings, Advanced(st, Standalone, chunk, content));
    }
  }

  lemma {:induction false} NameFinishes(env: Env, settings: Settings, st: State, h: seq<seq<byte>>, p1: nat,
                                        data: seq<byte>)
    requires Open(env, Standalone, st, h) && !st.pending && NamesToken(p1)
    ensures
      var named := env.tokenName(st.content.contractType, st.content.detail, p1 % 8, data);
      var c := if MayName(st.content, p1, true) && named.ok then Some(Rename(st, named.names).content) else None;
      Finishes(env, settings, c, NameToken(env, Standalone, settings, st, p1, data).1)
  {
    var named := env.tokenName(st.content.contractType, st.content.detail, p1 % 8, data);
    Renamed(env, Standalone, st, h, named.names);
    ProcessFinishes(env, settings, Rename(st, named.names), h, p1, []);
    NameParts(p1);
  }

  lemma {:induction false} NameParts(p1: nat)
    requires NamesToken(p1)
    ensures 0xA0 <= p1 < 0xB0 && (p1 / 8 % 2 == 1 <==> p1 >= 0xA8) && p1 % 8 == p1 - (if p1 < 0xA8 then 0xA0 else 0xA8)
  {}

  lemma {:induction false} OpeningFinishes(env: Env, st: State, e: Event)
    requires !st.ended && !st.pending && e.Apdu? && e.p2 == 0 && Opens(e.p1)
    ensures Finishes(env, e.settings, Completed(env, st, e), Step(env, Standalone, st, e).1)
  {
    ReadPathAnywhere(e.data, st.path);
    if Begins(e) {
      BeginStep(env, Standalone, st, e);
      EmptySummary(env);
      ProcessFinishes(env, e.settings, Init(st.(path := ReadPath(e.data, []).1)), [], e.p1, Payload(e.data));
    }
  }

  lemma {:induction false} StepFinishes(env: Env, st: State, h: seq<seq<byte>>, e: Event)
    requires Inv(env, Standalone, st, h) && !st.ended && !st.pending && e.Apdu?
    ensures Finishes(env, e.settings, Completed(env, st, e), Step(env, Standalone, st, e).1)
  {
    if e.p2 == 0 {
      if Opens(e.p1) {
        OpeningFinishes(env, st, e);
      } else if NamesToken(e.p1) {
        if st.initialized {
          NameFinishes(env, e.settings, st, h, e.p1, e.data);
        }
        NameParts(e.p1);
      } else if st.initialized && (e.p1 == P1_MORE || e.p1 == P1_LAST) {
        ProcessFinishes(env, e.settings, st, h, e.p1, e.data);
      }
    }
  }

  /** In every run on the device alone, a command that completes a content is answered by the verdict on it. */
  lemma {:induction false} CompletedVerdict(env: Env, events: seq<Event>, e: Event)
    requires e.Apdu? && !Run(env, Standalone, events).0.ended && !Run(env, Standalone, events).0.pending
    ensures
      var st := Run(env, Standalone, events).0;
      Finishes(env, e.settings, Completed(env, st, e), Step(env, Standalone, st, e).1)
  {
    EveryRun(env, Standalone, events);
    StepFinishes(env, Run(env, Standalone, events).0, Run(env, Standalone, events).1, e);
  }

  /**
   * Every step of every run on the device alone shows a review if and only if no review is on the screen, the
   * command completes a content, and that content is reviewable under the settings of the command.
   */
  lemma {:induction false} ReviewIff(env: Env, events: seq<Event>, e: Event)
    ensures
      var st := Run(env, Standalone, events).0;
      Step(env, Standalone, st, e).1.Review? <==>
        && !st.ended && !st.pending && Completed(env, st, e).Some? && WellShaped(Completed(env, st, e).value)
        && Reviewable(env, e.settings, Completed(env, st, e).value)
  {
    var st := Run(env, Standalone, events).0;
    if !st.ended && !st.pending && e.Apdu? {
      CompletedVerdict(env, events, e);
      if Completed(env, st, e).Some? {
        ReviewableIff(env, e.settings, Completed(env, st, e).value, Step(env, Standalone, st, e).1);
      }
    }
  }

  // Why commands are refused

  /** The data setting is the reason that is left when everything before it is in order. */
  lemma {:induction false} DataRefusedIff(env: Env, allowed: bool, c: TxContent, tx: Tx)
    requires Consistent(c)
    ensures ProcessDecoded(env, allowed, c, tx).0.DataNotAllowed? <==>
            && !allowed && DataBytes(tx.data, c.dataBytes) != 0
            && (tx.fee != 0 ==> c.feeLimit == 0 || c.feeLimit == tx.fee)
            && (Parameter(tx).Some? ==> |Parameter(tx).value| <= 1)
    ensures !ProcessDecoded(env, allowed, c, tx).0.Finished?
  {}

  /** What a payload meets: an accepted one goes on, a refused one leaves an open session with nothing in it. */
  lemma {:induction false} PayloadVerdict(env: Env, settings: Settings, st: State, h: seq<seq<byte>>, p1: nat,
                                          chunk: seq<byte>)
    requires Open(env, Standalone, st, h) && !st.pending && chunk != []
    ensures
      var (st', r) := Process(env, Standalone, settings, st, p1, chunk);
      if Acceptable(env, settings.dataAllowed, h, chunk) then
        p1 != 0x90 && p1 != 0x10 ==>
          && r == Sw(0x9000) && st'.initialized && !st'.pending && st'.hashed == st.hashed + chunk
          && Summary(env, h + [chunk], st'.content)
      else
        && (r == Sw(0x6A80) || (r == Sw(0x6A8B) && !settings.dataAllowed && DataIn(h + [chunk]) != 0))
        && st' == st.(hashed := [], content := EMPTY)
  {
    Append(h, chunk);
    AcceptIff(env, settings.dataAllowed, h, st.content, chunk);
    if Acceptable(env, settings.dataAllowed, h, chunk) {
      AcceptChunk(env, settings.dataAllowed, h, st.content, chunk);
    } else if ChunkTx(chunk).Some? {
      DataRefusedIff(env, settings.dataAllowed, st.content, ChunkTx(chunk).value);
    }
  }

  /** The same in every run, for the chunks behind the first. */
  lemma {:induction false} ChunkVerdict(env: Env, events: seq<Event>, e: Event)
    requires e.Apdu? && e.p2 == 0 && e.p1 in {0x80, 0x90} && e.data != []
    ensures
      var (st, h) := Run(env, Standalone, events);
      var (st', r) := Step(env, Standalone, st, e);
      !st.ended && !st.pending && st.initialized ==>
        if Acceptable(env, e.settings.dataAllowed, h, e.data) then
          e.p1 == 0x80 ==> r == Sw(0x9000) && st'.hashed == Concat(h) + e.data
        else
          && (r == Sw(0x6A80) || (r == Sw(0x6A8B) && !e.settings.dataAllowed && DataIn(h + [e.data]) != 0))
          && st' == st.(hashed := [], content := EMPTY)
  {
    var (st, h) := Run(env, Standalone, events);
    EveryRun(env, Standalone, events);
    if !st.ended && !st.pending && st.initialized {
      PayloadVerdict(env, e.settings, st, h, e.p1, e.data);
    }
  }

  /** Commands out of place: what is wrong with them, and that they change nothing but, maybe, the path. */
  predicate OutOfPlace(st: State, e: Event)
    requires e.Apdu?
  {
    || e.p2 != 0
    || (e.p1 !in {0x00, 0x10, 0x80, 0x90} && (e.p1 < 0xA0 || e.p1 > 0xAF))
    || (e.p1 in {0x80, 0x90} && !st.initialized)
    || (0xA0 <= e.p1 <= 0xAF && st.content.contractType in {2, 41, 42, 43, 44} &&
        !MayName(st.content, e.p1, true) && !MayName(st.content, e.p1, false))
  }

  /** Token names that do not finish the session, or that are refused. */
  lemma {:induction false} NameReplies(env: Env, mode: Mode, st: State, e: Event)
    requires e.Apdu? && NamesToken(e.p1)
    ensures
      var (st', r) := NameToken(env, mode, e.settings, st, e.p1, e.data);
      var named := env.tokenName(st.content.contractType, st.content.detail, e.p1 % 8, e.data);
      if st.content.contractType !in {2, 41, 42, 43, 44} then st' == st && r == Sw(0x6A80)
      else if MayName(st.content, e.p1, false) || (MayName(st.content, e.p1, true) && !named.ok) then
        st' == Rename(st, named.names) && r == Sw(if named.ok then 0x9000 else 0x6A80)
      else if MayName(st.content, e.p1, true) then
        (st', r) == Process(env, mode, e.settings, Rename(st, named.names), e.p1, [])
      else st' == st && r == Sw(0x6B00)
  {
    NameParts(e.p1);
  }

  lemma {:induction false} NamePlaces(env: Env, mode: Mode, st: State, h: seq<seq<byte>>, e: Event)
    requires Inv(env, mode, st, h) && !st.pending && e.Apdu? && e.p2 == 0 && NamesToken(e.p1)
    ensures
      var (st', r) := NameToken(env, mode, e.settings, st, e.p1, e.data);
      (r == Sw(0x6B00) <==> OutOfPlace(st, e)) && (r == Sw(0x6B00) ==> st' == st) && r != Sw(0x6A8A)
  {
    NameParts(e.p1);
    NameReplies(env, mode, st, e);
    if st.initialized {
      var named := env.tokenName(st.content.contractType, st.content.detail, e.p1 % 8, e.data);
      Renamed(env, mode, st, h, named.names);
      ProcessNothing(env, mode, e.settings, Rename(st, named.names), h, e.p1);
    }
  }

  lemma {:induction false} ProcessPlaces(env: Env, mode: Mode, settings: Settings, st: State, h: seq<seq<byte>>,
                                         p1: nat, chunk: seq<byte>)
    requires Open(env, mode, st, h) && !st.pending
    ensures
      var r := Process(env, mode, settings, st, p1, chunk).1;
      r != Sw(0x6B00) && r != Sw(0x6A8A)
  {
    ProcessChunk(env, mode, settings, st, h, p1, chunk);
  }

  lemma {:induction false} StepPlaces(env: Env, mode: Mode, st: State, h: seq<seq<byte>>, e: Event)
    requires Inv(env, mode, st, h) && !st.ended && !st.pending && e.Apdu?
    ensures
      var (st', r) := Step(env, mode, st, e);
      && (r == Sw(0x6B00) <==> OutOfPlace(st, e)) && (r == Sw(0x6B00) ==> st' == st)
      && (r == Sw(0x6A8A) <==> e.p2 == 0 && e.p1 in {0x00, 0x10} && ReadPath(e.data, []).0.None?)
      && (r == Sw(0x6A8A) ==> st' == st.(path := ReadPath(e.data, st.path).1))
  {
    if e.p2 == 0 {
      if Opens(e.p1) {
        ReadPathAnywhere(e.data, st.path);
        if Begins(e) {
          BeginStep(env, mode, st, e);
          EmptySummary(env);
          ProcessPlaces(env, mode, e.settings, Init(st.(path := ReadPath(e.data, []).1)), [], e.p1, Payload(e.data));
        }
      } else if NamesToken(e.p1) {
        NamePlaces(env, mode, st, h, e);
        NameParts(e.p1);
      } else if st.initialized && (e.p1 == P1_MORE || e.p1 == P1_LAST) {
        ProcessPlaces(env, mode, e.settings, st, h, e.p1, e.data);
      }
    }
  }

  /** In every run, a command is refused with 0x6B00 exactly when it is out of place, and with 0x6A8A for its path. */
  lemma {:induction false} PlacesIff(env: Env, mode: Mode, events: seq<Event>, e: Event)
    requires e.Apdu? && !Run(env, mode, events).0.ended && !Run(env, mode, events).0.pending
    ensures
      var st := Run(env, mode, events).0;
      var (st', r) := Step(env, mode, st, e);
      && (r == Sw(0x6B00) <==> OutOfPlace(st, e)) && (r == Sw(0x6B00) ==> st' == st)
      && (r == Sw(0x6A8A) <==> e.p2 == 0 && e.p1 in {0x00, 0x10} && ReadPath(e.data, []).0.None?)
      && (r == Sw(0x6A8A) ==> st' == st.(path := ReadPath(e.data, st.path).1))
  {
    EveryRun(env, mode, events);
    StepPlaces(env, mode, Run(env, mode, events).0, Run(env, mode, events).1, e);
  }

  /** Token names go to the contract's details, which keep everything else. */
  lemma {:induction false} RenameIs(st: State, names: seq<string>)
    ensures st.content.detail.Other? ==>
              Rename(st, names) ==
              st.(content := st.content.(detail := Other(st.content.detail.payload, names)))
    ensures !st.content.detail.Other? ==> Rename(st, names) == st
  {}

  // Decisions

  /**
   * In every run, a decision about a review closes the session: a confirmation signs the hash of the payloads with
   * the stored path, or reports that it cannot; a rejection signs nothing. Without a review nothing happens.
   */
  lemma {:induction false} DecisionIff(env: Env, mode: Mode, events: seq<Event>, e: Event)
    requires !e.Apdu? && !Run(env, mode, events).0.ended
    ensures
      var (st, h) := Run(env, mode, events);
      var (st', r) := Step(env, mode, st, e);
      if !st.pending then st' == st && r == Silent
      else
        && Closed(st')
        && match e
           case Reject => r == Sw(0x6985)
           case Confirm =>
             match env.sign(st.path, env.sha256(Concat(h)))
             case None => r == Sw(0x6982)
             case Some(bytes) => r == Signature(bytes)
  {
    EveryRun(env, mode, events);
  }

  /** While a review is on the screen no command is heard, and after the end nothing is. */
  lemma {:induction false} NobodyElse(env: Env, mode: Mode, st: State, e: Event)
    ensures st.ended || (st.pending && e.Apdu?) ==> Step(env, mode, st, e) == (st, Silent)
  {}
}
