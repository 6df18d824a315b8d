/** Which path a signature of the INS_SIGN session is made with. */
module Paths {
  import opened Arith
  import opened Schema
  import opened Radix
  import opened Decimal
  import opened Amount
  import opened Transaction
  import opened Swap
  import opened Session
  import opened Runs

  // Only opening commands touch the path

  lemma {:induction false} ShowKeepsPath(env: Env, mode: Mode, st: State, text: string, ticker: string, action: string,
                                         to: string)
    ensures Show(env, mode, st, text, ticker, action, to).0.path == st.path
  {}

  lemma {:induction false} TransferKeepsPath(env: Env, mode: Mode, st: State)
    requires st.content.detail.Transfer?
    ensures ShowTransfer(env, mode, st).0.path == st.path
  {
    var d := st.content.detail;
    if PrintSpec(d.amount, LINE, SUN_DIG).Text? {
      ShowKeepsPath(env, mode, st, PrintSpec(d.amount, LINE, SUN_DIG).text, "TRX", "To", env.base58(d.to));
    }
  }

  lemma {:induction false} TokenKeepsPath(env: Env, mode: Mode, st: State)
    requires st.content.detail.Trigger? && st.content.detail.token.Some?
    ensures ShowToken(env, mode, st).0.path == st.path
  {
    var d := st.content.detail;
    ShowKeepsPath(env, mode, st, Adjusted(Numeral(BigEndian(d.call.value), 10), d.token.value.decimals),
                  d.token.value.ticker, if d.call.trcMethod == 1 then "To" else "Allow", env.base58(d.call.to));
  }

  lemma {:induction false} CustomKeepsPath(settings: Settings, st: State)
    requires st.content.detail.Trigger?
    ensures ShowCustom(settings, st).0.path == st.path
  {}

  lemma {:induction false} ContractKeepsPath(env: Env, mode: Mode, settings: Settings, st: State)
    ensures ShowContract(env, mode, settings, st).0.path == st.path
  {
    var t, d := st.content.contractType, st.content.detail;
    if t == TRANSFERCONTRACT && d.Transfer? {
      TransferKeepsPath(env, mode, st);
    } else if t == TRIGGERSMARTCONTRACT && d.Trigger? {
      if d.call.trcMethod != 0 && d.token.Some? {
        TokenKeepsPath(env, mode, st);
      } else {
        CustomKeepsPath(settings, st);
      }
    }
  }

  lemma {:induction false} FinalizeKeepsPath(env: Env, mode: Mode, settings: Settings, st: State)
    ensures Finalize(env, mode, settings, st).0.path == st.path
  {
    ContractKeepsPath(env, mode, settings, st.(hash := env.sha256(st.hashed)));
  }

  lemma {:induction false} ProcessKeepsPath(env: Env, mode: Mode, settings: Settings, st: State, p1: nat,
                                            chunk: seq<byte>)
    ensures Process(env, mode, settings, st, p1, chunk).0.path == st.path
  {
    var content := ProcessTx(env, settings.dataAllowed, st.content, chunk).1;
    FinalizeKeepsPath(env, mode, settings, Advanced(st, mode, chunk, content));
  }

  // Reading a path

  /** A command that reads a path when it is handled. */
  predicate Starts(e: Event) {
    e.Apdu? && e.p2 == 0 && Opens(e.p1)
  }

  /** The indices are complete, so they are stored, whatever they are. */
  predicate StoresPath(data: seq<byte>) {
    |data| >= 1 && 1 <= data[0] <= 10 && |data| - 1 >= 4 * (data[0] as int)
  }

  function PathIn(data: seq<byte>): seq<nat>
    requires StoresPath(data)
  {
    Indices(data[1..], data[0])
  }

  /** A path is refused without a trace, or stored and accepted exactly when it is under the prefix. */
  lemma {:induction false} ReadPathStores(data: seq<byte>, path: seq<nat>)
    ensures !StoresPath(data) ==> ReadPath(data, path) == (None, path)
    ensures StoresPath(data) ==> ReadPath(data, path).1 == PathIn(data)
    ensures StoresPath(data) ==> (ReadPath(data, path).0.Some? <==> PREFIX <= PathIn(data))
    ensures PREFIX == [0x8000_0000 + 44, 0x8000_0000 + 195]
  {}

  function Spelled(a: int, b: int, c: int, d: int): int {
    ((a * 256 + b) * 256 + c) * 256 + d
  }

  lemma {:induction false} FourBytes(s: seq<byte>)
    requires |s| == 4
    ensures BigEndian(s) == Spelled(s[0], s[1], s[2], s[3])
  {
    var a: int, b: int, c: int := s[0], s[1], s[2];
    assert s[..3][..2][..1][..0] == [];
    assert BigEndian(s[..3][..2][..1]) == a;
    assert BigEndian(s[..3][..2]) == a * 256 + b;
    assert BigEndian(s[..3]) == (a * 256 + b) * 256 + c;
  }

  /** Each index is four bytes, most significant first. */
  lemma {:induction false} IndexAt(data: seq<byte>, n: nat, k: nat)
    requires |data| >= 4 * n && k < n
    ensures Indices(data, n)[k] == Spelled(data[4 * k], data[4 * k + 1], data[4 * k + 2], data[4 * k + 3])
  {
    if k == n - 1 {
      FourBytes(data[4 * k..4 * k + 4]);
    } else {
      IndexAt(data, n - 1, k);
    }
  }

  // What an observer knows about the path

  /** The path stored last, and whether it was refused after it was stored. */
  datatype Trail = Trail(path: seq<nat>, strayed: bool)

  function Follow(t: Trail, e: Event, r: Reply): Trail {
    if !Starts(e) || r.Silent? || !StoresPath(e.data) then t else Trail(PathIn(e.data), r == Sw(E_INCORRECT_BIP32_PATH))
  }

  function TrailOf(env: Env, mode: Mode, events: seq<Event>): Trail {
    if events == [] then Trail([], true)
    else
      var before, e := events[..|events| - 1], events[|events| - 1];
      Follow(TrailOf(env, mode, before), e, Step(env, mode, Run(env, mode, before).0, e).1)
  }

  /** An open session signs with the path stored last, which is under the prefix unless it was refused. */
  predicate OnTrail(st: State, t: Trail) {
    st.path == t.path && (PREFIX <= t.path <==> !t.strayed)
  }

  lemma {:induction false} OpeningTrail(env: Env, mode: Mode, st: State, t: Trail, p1: nat, data: seq<byte>,
                                        settings: Settings)
    requires OnTrail(st, t) && !st.pending && Opens(p1)
    ensures
      var (st', r) := HandleSign(env, mode, st, p1, 0, data, settings);
      if r.Silent? then st'.ended else OnTrail(st', Follow(t, Apdu(p1, 0, data, settings), r))
  {
    ReadPathStores(data, st.path);
    var (taken, path) := ReadPath(data, st.path);
    if taken.Some? {
      var st1, chunk := Init(st.(path := path)), data[taken.value..];
      ProcessKeepsPath(env, mode, settings, st1, p1, chunk);
      EmptySummary(env);
      ProcessChunk(env, mode, settings, st1, [], p1, chunk);
    }
  }

  lemma {:induction false} OtherTrail(env: Env, mode: Mode, st: State, p1: nat, data: seq<byte>, settings: Settings)
    requires !Opens(p1)
    ensures HandleSign(env, mode, st, p1, 0, data, settings).0.path == st.path
  {
    if NamesToken(p1) {
      var named := env.tokenName(st.content.contractType, st.content.detail, p1 % 8, data);
      ProcessKeepsPath(env, mode, settings, Rename(st, named.names), p1, []);
    } else {
      ProcessKeepsPath(env, mode, settings, st, p1, data);
    }
  }

  lemma {:induction false} StepTrail(env: Env, mode: Mode, st: State, t: Trail, e: Event)
    requires st.ended || OnTrail(st, t)
    ensures
      var (st', r) := Step(env, mode, st, e);
      (st'.ended && r.Silent?) || OnTrail(st', Follow(t, e, r))
  {
    if !st.ended && e.Apdu? && !st.pending && e.p2 == 0 {
      if Opens(e.p1) {
        OpeningTrail(env, mode, st, t, e.p1, e.data, e.settings);
      } else {
        OtherTrail(env, mode, st, e.p1, e.data, e.settings);
      }
    }
  }

  lemma {:induction false} RunTrail(env: Env, mode: Mode, events: seq<Event>)
    ensures Run(env, mode, events).0.ended || OnTrail(Run(env, mode, events).0, TrailOf(env, mode, events))
  {
    if events == [] {
    } else {
      var before, e := events[..|events| - 1], events[|events| - 1];
      RunTrail(env, mode, before);
      StepTrail(env, mode, Run(env, mode, before).0, TrailOf(env, mode, before), e);
    }
  }

  /**
   * Every signature of every run is made with the path stored last. That path is under Tron's prefix exactly when
   * the command that stored it was not refused: a refused command stores its indices all the same, and leaves an
   * open session as it is.
   */
  lemma {:induction false} SignaturePath(env: Env, mode: Mode, events: seq<Event>, e: Event)
    ensures
      var (st, h) := Run(env, mode, events);
      var (st', r) := Step(env, mode, st, e);
      var trail := Follow(TrailOf(env, mode, events), e, r);
      r.Signature? ==>
        && Covers(env, mode, trail.path, Signed(h, e, r), r.bytes)
        && (PREFIX <= trail.path <==> !trail.strayed)
  {
    SignatureCovers(env, mode, events, e);
    RunTrail(env, mode, events);
    StepTrail(env, mode, Run(env, mode, events).0, TrailOf(env, mode, events), e);
  }
}
