/** Signing a personal message that arrives in chunks (src/handlers/sign_personal_message.c). */
module PersonalMessage {
  import opened Arith
  import opened Schema
  import opened Radix
  import opened Chunks
  import opened Session

  /** Hashing, key derivation and signing are outside the model. */
  datatype Keys = Keys(
    keccak: seq<byte> -> seq<byte>,
    derives: seq<nat> -> bool,
    sign: (seq<nat>, seq<byte>) -> Option<seq<byte>>)

  datatype Command = Send(p1: nat, p2: nat, data: seq<byte>, signByHash: bool) | Approve | Decline

  /** `remaining` is txContent.dataBytes, `hashed` the input of the Keccak context so far. */
  datatype Progress = Progress(
    initialized: bool, hashed: seq<byte>, remaining: nat, path: seq<nat>, hash: seq<byte>, pending: bool)

  const IDLE: Progress := Progress(false, [], 0, [], [], false)

  // The header

  function Ascii(s: string): seq<byte> {
    if s == "" then [] else [s[0] as int % 256] + Ascii(s[1..])
  }

  /** 0x19, then "TRON Signed Message:" and a line feed. */
  const SIGN_MAGIC: seq<byte> :=
    [0x19, 0x54, 0x52, 0x4F, 0x4E, 0x20, 0x53, 0x69, 0x67, 0x6E, 0x65, 0x64,
     0x20, 0x4D, 0x65, 0x73, 0x73, 0x61, 0x67, 0x65, 0x3A, 0x0A]

  /** The ten characters that snprintf keeps of a 32-bit number printed with %d. */
  function LengthText(n: u32): string {
    var s := if n < TWO31 then Numeral(n, 10) else "-" + Numeral(TWO32 - n, 10);
    if |s| <= 10 then s else s[..10]
  }

  /** The printed length is the decimal numeral of the length exactly for lengths below 2^31. */
  lemma {:induction false} LengthTextIff(n: u32)
    ensures LengthText(n) == Numeral(n, 10) <==> n < TWO31
  {
    if n < TWO31 {
      assert Pow(10, 5) == 100_000;
      PowAdd(10, 5, 5);
      NumeralLength(n, 10, 10);
    } else {
      NumeralCanonical(n, 10);
      assert IsDigit(Numeral(n, 10)[0], 10);
      DigitBelow(Numeral(n, 10)[0], 10);
      assert LengthText(n)[0] == '-';
    }
  }

  function Header(n: u32): seq<byte> {
    SIGN_MAGIC + Ascii(LengthText(n))
  }

  // Steps

  function Cleared(st: Progress): Progress {
    st.(initialized := false, hashed := [])
  }

  /** A chunk of the message, and the review once it is complete. */
  function Absorb(keys: Keys, st: Progress, p2: nat, chunk: seq<byte>): (Progress, Reply) {
    if p2 != 0 then (st, Sw(E_INCORRECT_P1_P2))
    else if |chunk| > st.remaining then (Cleared(st), Sw(E_INCORRECT_LENGTH))
    else
      var st1 := st.(hashed := st.hashed + chunk, remaining := st.remaining - |chunk|);
      if st1.remaining != 0 then (st1, Sw(E_OK))
      else
        var st2 := Cleared(st1.(hash := keys.keccak(st1.hashed)));
        if keys.derives(st2.path) then (st2.(pending := true), Review(OtherDisplay))
        else (st2, Sw(E_SECURITY_STATUS_NOT_SATISFIED))
  }

  /** The declared length behind the path of an opening command, and the first chunk behind it. */
  function Declared(rest: seq<byte>): u32
    requires |rest| >= 4
  {
    FourBytes(rest[..4]);
    BigEndian(rest[..4])
  }

  lemma {:induction false} FourBytes(s: seq<byte>)
    requires |s| == 4
    ensures 0 <= BigEndian(s) < TWO32
  {
    assert s[..3][..2][..1][..0] == [];
    assert BigEndian(s[..3][..2][..1]) < 0x100;
    assert BigEndian(s[..3][..2]) < 0x1_0000;
    assert BigEndian(s[..3]) < 0x100_0000;
  }

  /** The first command: a path, a length and the beginning of the message. */
  function OpenMessage(keys: Keys, st: Progress, p2: nat, data: seq<byte>): (Progress, Reply) {
    var (taken, path) := ReadPath(data, st.path);
    if taken.None? then (Cleared(st.(path := path)), Sw(E_INCORRECT_BIP32_PATH))
    else
      var rest := data[taken.value..];
      if |rest| < 4 then (Cleared(st.(path := path)), Sw(E_INCORRECT_LENGTH))
      else
        var n := Declared(rest);
        Absorb(keys, st.(path := path, initialized := true, hashed := Header(n), remaining := n), p2, rest[4..])
  }

  function HandleMessage(keys: Keys, st: Progress, p1: nat, p2: nat, data: seq<byte>, signByHash: bool)
    : (Progress, Reply)
  {
    if !signByHash then (st, Sw(E_MISSING_SETTING_SIGN_BY_HASH))
    else if Opens(p1) then OpenMessage(keys, st, p2, data)
    else if p1 != P1_MORE || !st.initialized then (st, Sw(E_INCORRECT_P1_P2))
    else Absorb(keys, st, p2, data)
  }

  /** ui_callback_signMessage_ok and ui_callback_tx_cancel; nothing else is handled while the review is shown. */
  function Advance(keys: Keys, st: Progress, c: Command): (Progress, Reply) {
    match c
    case Send(p1, p2, data, signByHash) =>
      if st.pending then (st, Silent) else HandleMessage(keys, st, p1, p2, data, signByHash)
    case Approve =>
      if !st.pending then (st, Silent)
      else (st.(pending := false),
            match keys.sign(st.path, st.hash)
            case None => Sw(E_SECURITY_STATUS_NOT_SATISFIED)
            case Some(bytes) => Signature(bytes))
    case Decline =>
      if !st.pending then (st, Silent)
      else (st.(pending := false, remaining := 0), Sw(E_CONDITIONS_OF_USE_NOT_SATISFIED))
  }

  // What an observer of commands and replies knows: the declared length and the accepted chunks

  datatype Seen = Seen(length: u32, chunks: seq<seq<byte>>)

  /** The replies to a chunk that was taken. */
  predicate Taken(r: Reply) {
    r.Review? || r == Sw(E_OK) || r == Sw(E_SECURITY_STATUS_NOT_SATISFIED)
  }

  function Watch(seen: Seen, c: Command, r: Reply): Seen {
    if !c.Send? || r.Silent? then seen
    else
      var path := if |c.data| > 0 then 1 + 4 * (c.data[0] as int) else 0;
      if Opens(c.p1) && |c.data| >= path + 4 && (Taken(r) || r == Sw(E_INCORRECT_P1_P2)) then
        Seen(Declared(c.data[path..]), if Taken(r) then [c.data[path + 4..]] else [])
      else if Taken(r) && !Opens(c.p1) then seen.(chunks := seen.chunks + [c.data])
      else seen
  }

  function Run(keys: Keys, commands: seq<Command>): (Progress, Seen) {
    if commands == [] then (IDLE, Seen(0, []))
    else
      var (st, seen) := Run(keys, commands[..|commands| - 1]);
      var c := commands[|commands| - 1];
      var (st', r) := Advance(keys, st, c);
      (st', Watch(seen, c, r))
  }

  // The invariant

  /** What is hashed for the chunks so far. */
  function Expected(seen: Seen): seq<byte> {
    Header(seen.length) + Concat(seen.chunks)
  }

  /** While a message is coming in: what is hashed behind the header, and what is still missing. */
  predicate Collecting(st: Progress, head: seq<byte>, seen: Seen) {
    st.hashed == head + Concat(seen.chunks) && |Concat(seen.chunks)| + st.remaining == seen.length
  }

  predicate Inv(keys: Keys, st: Progress, seen: Seen) {
    && (st.initialized ==> Collecting(st, Header(seen.length), seen) && !st.pending)
    && (st.pending ==>
          && st.hash == keys.keccak(Expected(seen)) && |Concat(seen.chunks)| == seen.length && st.remaining == 0)
    && (st.initialized || st.pending ==> PREFIX <= st.path)
  }

  /** One chunk: the review starts exactly when nothing is missing any more, and the context is gone by then. */
  lemma {:induction false} AbsorbStep(keys: Keys, st: Progress, head: seq<byte>, seen: Seen, p2: nat, chunk: seq<byte>)
    requires Collecting(st, head, seen) && st.initialized && !st.pending
    ensures
      var (st', r) := Absorb(keys, st, p2, chunk);
      var seen' := seen.(chunks := seen.chunks + [chunk]);
      && (r == Sw(E_OK) ==> st'.initialized && !st'.pending && Collecting(st', head, seen') && st'.remaining > 0)
      && (r.Review? ==>
            && !st'.initialized && st'.remaining == 0 && st'.pending
            && st'.hash == keys.keccak(head + Concat(seen'.chunks)) && |Concat(seen'.chunks)| == seen.length)
      && (r == Sw(E_SECURITY_STATUS_NOT_SATISFIED) ==> !st'.initialized && !st'.pending && st'.remaining == 0)
      && (r == Sw(E_INCORRECT_P1_P2) ==> st' == st)
      && (r == Sw(E_INCORRECT_LENGTH) ==> !st'.initialized && !st'.pending)
      && (r.Review? || r.Sw?) && st'.path == st.path
      && (r.Sw? ==> r.sw in {E_OK, E_SECURITY_STATUS_NOT_SATISFIED, E_INCORRECT_P1_P2, E_INCORRECT_LENGTH})
      && (p2 == 0 && |chunk| <= st.remaining ==>
            ((r.Review? || r == Sw(E_SECURITY_STATUS_NOT_SATISFIED)) <==> |chunk| == st.remaining))
  {
    ConcatAppend(seen.chunks, chunk);
    assert head + Concat(seen.chunks) + chunk == head + (Concat(seen.chunks) + chunk);
  }

  /** A chunk keeps the invariant. */
  lemma {:induction false} AbsorbKeeps(keys: Keys, st: Progress, seen: Seen, p2: nat, chunk: seq<byte>)
    requires Collecting(st, Header(seen.length), seen) && st.initialized && !st.pending && PREFIX <= st.path
    ensures
      var (st', r) := Absorb(keys, st, p2, chunk);
      && Inv(keys, st', if Taken(r) then seen.(chunks := seen.chunks + [chunk]) else seen)
      && !r.Silent? && (Taken(r) || r == Sw(E_INCORRECT_P1_P2) || !(st'.initialized || st'.pending))
  {
    AbsorbStep(keys, st, Header(seen.length), seen, p2, chunk);
  }

  /** What an observer makes of the reply to an opening command with a path and a length. */
  lemma {:induction false} WatchOpening(seen: Seen, p1: nat, p2: nat, data: seq<byte>, taken: nat, r: Reply)
    requires Opens(p1) && |data| >= taken + 4 && taken == 1 + 4 * (data[0] as int) && !r.Silent?
    ensures
      Watch(seen, Send(p1, p2, data, true), r) ==
      if Taken(r) then Seen(Declared(data[taken..]), [data[taken..][4..]])
      else if r == Sw(E_INCORRECT_P1_P2) then Seen(Declared(data[taken..]), [])
      else seen
  {
    assert data[taken..][4..] == data[taken + 4..];
  }

  /** Behind a valid path and a length, the first chunk is absorbed like any other. */
  lemma {:induction false} BeginMessage(keys: Keys, st: Progress, seen: Seen, path: seq<nat>, p1: nat, p2: nat,
                                        data: seq<byte>, taken: nat)
    requires !st.pending && Opens(p1) && PREFIX <= path && |data| >= taken + 4 && taken == 1 + 4 * (data[0] as int)
    ensures
      var n := Declared(data[taken..]);
      var st1 := st.(path := path, initialized := true, hashed := Header(n), remaining := n);
      var (st', r) := Absorb(keys, st1, p2, data[taken..][4..]);
      Inv(keys, st', Watch(seen, Send(p1, p2, data, true), r))
  {
    var n, chunk := Declared(data[taken..]), data[taken..][4..];
    assert Header(n) + Concat([]) == Header(n);
    assert [] + [chunk] == [chunk];
    var st1 := st.(path := path, initialized := true, hashed := Header(n), remaining := n);
    AbsorbKeeps(keys, st1, Seen(n, []), p2, chunk);
    WatchOpening(seen, p1, p2, data, taken, Absorb(keys, st1, p2, chunk).1);
  }

  lemma {:induction false} FirstStep(keys: Keys, st: Progress, seen: Seen, p1: nat, p2: nat, data: seq<byte>)
    requires Inv(keys, st, seen) && !st.pending && Opens(p1)
    ensures
      var (st', r) := OpenMessage(keys, st, p2, data);
      Inv(keys, st', Watch(seen, Send(p1, p2, data, true), r))
  {
    var (taken, path) := ReadPath(data, st.path);
    if taken.Some? && |data[taken.value..]| >= 4 {
      BeginMessage(keys, st, seen, path, p1, p2, data, taken.value);
    }
  }

  lemma {:induction false} EveryStep(keys: Keys, st: Progress, seen: Seen, c: Command)
    requires Inv(keys, st, seen)
    ensures
      var (st', r) := Advance(keys, st, c);
      Inv(keys, st', Watch(seen, c, r))
  {
    if c.Send? && !st.pending && c.signByHash {
      if Opens(c.p1) {
        FirstStep(keys, st, seen, c.p1, c.p2, c.data);
      } else if c.p1 == P1_MORE && st.initialized {
        AbsorbKeeps(keys, st, seen, c.p2, c.data);
      }
    }
  }

  /**
   * In every run: while a message is coming in, the hash input is the magic, the printed length and the accepted
   * chunks, and their lengths plus the counter add up to the declared length.
   */
  lemma {:induction false} EveryRun(keys: Keys, commands: seq<Command>)
    ensures
      var (st, seen) := Run(keys, commands);
      Inv(keys, st, seen)
  {
    if commands == [] {
    } else {
      var before, c := commands[..|commands| - 1], commands[|commands| - 1];
      EveryRun(keys, before);
      EveryStep(keys, Run(keys, before).0, Run(keys, before).1, c);
    }
  }

  /**
   * Every signature is over the whole message of the declared length, behind the header; nothing but the accepted
   * chunks of that message is in it, and its path is under Tron's prefix: a refused path clears the context.
   */
  lemma {:induction false} SignatureIsWhole(keys: Keys, commands: seq<Command>, c: Command)
    ensures
      var (st, seen) := Run(keys, commands);
      var r := Advance(keys, st, c).1;
      r.Signature? ==>
        && |Concat(seen.chunks)| == seen.length && PREFIX <= st.path
        && keys.sign(st.path, keys.keccak(Expected(seen))) == Some(r.bytes)
  {
    var (st, seen) := Run(keys, commands);
    EveryRun(keys, commands);
    WholeMessage(keys, st, seen, c);
  }

  lemma {:induction false} AbsorbSignsNothing(keys: Keys, st: Progress, p2: nat, chunk: seq<byte>)
    ensures !Absorb(keys, st, p2, chunk).1.Signature?
  {}

  lemma {:induction false} OpeningSignsNothing(keys: Keys, st: Progress, p2: nat, data: seq<byte>)
    ensures !OpenMessage(keys, st, p2, data).1.Signature?
  {
    var (taken, path) := ReadPath(data, st.path);
    if taken.Some? && |data[taken.value..]| >= 4 {
      var rest := data[taken.value..];
      var n := Declared(rest);
      AbsorbSignsNothing(keys, st.(path := path, initialized := true, hashed := Header(n), remaining := n), p2,
                         rest[4..]);
    }
  }

  lemma {:induction false} NoSignature(keys: Keys, st: Progress, p1: nat, p2: nat, data: seq<byte>, signByHash: bool)
    ensures !HandleMessage(keys, st, p1, p2, data, signByHash).1.Signature?
  {
    if Opens(p1) {
      OpeningSignsNothing(keys, st, p2, data);
    } else {
      AbsorbSignsNothing(keys, st, p2, data);
    }
  }

  lemma {:induction false} WholeMessage(keys: Keys, st: Progress, seen: Seen, c: Command)
    requires Inv(keys, st, seen)
    ensures
      var r := Advance(keys, st, c).1;
      r.Signature? ==>
        && |Concat(seen.chunks)| == seen.length && PREFIX <= st.path
        && keys.sign(st.path, keys.keccak(Expected(seen))) == Some(r.bytes)
  {
    match c
    case Send(p1, p2, data, signByHash) => NoSignature(keys, st, p1, p2, data, signByHash);
    case Approve =>
    case Decline =>
  }

  /** Below 2^31 the header is the magic and the decimal length. */
  lemma {:induction false} HeaderIsDecimal(n: u32)
    ensures n < TWO31 ==> Header(n) == SIGN_MAGIC + Ascii(Numeral(n, 10))
  {
    LengthTextIff(n);
  }

  // Which commands are taken

  /** Where the chunk of a command starts, and how many bytes of the message are missing before it. */
  datatype Arrival = NoPath | NoLength | NoMessage | Arriving(path: seq<nat>, chunk: seq<byte>, missing: nat)

  function ArrivalOf(path: seq<nat>, open: bool, missing: nat, c: Command): Arrival
    requires c.Send?
  {
    if c.p1 == 0x00 || c.p1 == 0x10 then
      match ReadPath(c.data, []).0
      case None => NoPath
      case Some(n) =>
        if |c.data| < n + 4 then NoLength
        else Arriving(ReadPath(c.data, []).1, c.data[n + 4..], BigEndian(c.data[n..n + 4]))
    else if c.p1 == 0x80 && open then Arriving(path, c.data, missing)
    else NoMessage
  }

  /** The reply to a command, by where its chunk arrives. */
  predicate Answered(keys: Keys, a: Arrival, c: Command, r: Reply)
    requires c.Send?
  {
    if !c.signByHash then r == Sw(0x6A8C)
    else
      match a
      case NoPath => r == Sw(0x6A8A)
      case NoLength => r == Sw(0x6700)
      case NoMessage => r == Sw(0x6B00)
      case Arriving(path, chunk, missing) =>
        if c.p2 != 0 then r == Sw(0x6B00)
        else if |chunk| > missing then r == Sw(0x6700)
        else if |chunk| < missing then r == Sw(0x9000)
        else if keys.derives(path) then r.Review?
        else r == Sw(0x6982)
  }

  lemma {:induction false} AbsorbAnswers(keys: Keys, st: Progress, p2: nat, chunk: seq<byte>, c: Command)
    requires c.Send? && c.signByHash && c.p2 == p2
    ensures Answered(keys, Arriving(st.path, chunk, st.remaining), c, Absorb(keys, st, p2, chunk).1)
  {}

  lemma {:induction false} OpeningAnswers(keys: Keys, st: Progress, c: Command)
    requires c.Send? && c.signByHash && Opens(c.p1)
    ensures Answered(keys, ArrivalOf(st.path, false, 0, c), c, OpenMessage(keys, st, c.p2, c.data).1)
  {
    var (taken, path) := ReadPath(c.data, st.path);
    ReadPathAnywhere(c.data, st.path);
    if taken.Some? && |c.data[taken.value..]| >= 4 {
      var rest := c.data[taken.value..];
      var n := Declared(rest);
      assert rest[..4] == c.data[taken.value..taken.value + 4] && rest[4..] == c.data[taken.value + 4..];
      AbsorbAnswers(keys, st.(path := path, initialized := true, hashed := Header(n), remaining := n), c.p2,
                    rest[4..], c);
    }
  }

  /**
   * In every run every command is answered by its place: with the setting off it changes nothing at all, and a chunk
   * is taken exactly when it fits what is missing, the review starting with the one that completes the message.
   */
  lemma {:induction false} EveryAnswer(keys: Keys, commands: seq<Command>, c: Command)
    requires c.Send? && !Run(keys, commands).0.pending
    ensures
      var (st, seen) := Run(keys, commands);
      var (st', r) := Advance(keys, st, c);
      var missing := if st.initialized then seen.length - |Concat(seen.chunks)| else 0;
      && missing >= 0 && Answered(keys, ArrivalOf(st.path, st.initialized, missing, c), c, r)
      && (!c.signByHash ==> st' == st && Watch(seen, c, r) == seen)
  {
    var (st, seen) := Run(keys, commands);
    EveryRun(keys, commands);
    if c.signByHash {
      if Opens(c.p1) {
        OpeningAnswers(keys, st, c);
      } else if c.p1 == P1_MORE && st.initialized {
        AbsorbAnswers(keys, st, c.p2, c.data, c);
      }
    }
  }

  /** While a review is on the screen only the user is heard; a decision ends it, and only a confirmation signs. */
  lemma {:induction false} EveryDecision(keys: Keys, commands: seq<Command>, c: Command)
    ensures
      var (st, seen) := Run(keys, commands);
      var (st', r) := Advance(keys, st, c);
      if c.Send? then st.pending ==> st' == st && r == Silent
      else if !st.pending then st' == st && r == Silent
      else
        && !st'.pending && !st'.initialized
        && if c.Decline? then r == Sw(0x6985) && st'.remaining == 0
           else match keys.sign(st.path, keys.keccak(Expected(seen)))
             case None => r == Sw(0x6982)
             case Some(bytes) => r == Signature(bytes)
  {
    EveryRun(keys, commands);
  }

  /** The header starts with a byte 0x19, its text and a line feed. */
  lemma {:induction false} MagicText(i: nat)
    requires i < 20
    ensures |SIGN_MAGIC| == 22 && SIGN_MAGIC[0] == 0x19 && SIGN_MAGIC[21] == 0x0A
    ensures SIGN_MAGIC[i + 1] == "TRON Signed Message:"[i] as int
  {}

  // The handler

  class Signer {
    const keys: Keys

    var initialized: bool
    var hashed: seq<byte>
    var remaining: nat
    var path: seq<nat>
    var hash: seq<byte>
    var pending: bool

    function Abs(): Progress
      reads this
    {
      Progress(initialized, hashed, remaining, path, hash, pending)
    }

    constructor (keys: Keys)
      ensures Abs() == IDLE && this.keys == keys
    {
      this.keys := keys;
      initialized, hashed, remaining, path, hash, pending := false, [], 0, [], [], false;
    }

    method ClearContext()
      modifies this
      ensures Abs() == Cleared(old(Abs()))
    {
      initialized, hashed := false, [];
    }

    method HandleChunk(p2: nat, chunk: seq<byte>) returns (r: Reply)
      modifies this
      ensures (Abs(), r) == Absorb(keys, old(Abs()), p2, chunk)
    {
      if p2 != 0 {
        return Sw(E_INCORRECT_P1_P2);
      }
      if |chunk| > remaining {
        ClearContext();
        return Sw(E_INCORRECT_LENGTH);
      }
      hashed := hashed + chunk;
      remaining := remaining - |chunk|;
      if remaining != 0 {
        return Sw(E_OK);
      }
      hash := keys.keccak(hashed);
      ClearContext();
      if !keys.derives(path) {
        return Sw(E_SECURITY_STATUS_NOT_SATISFIED);
      }
      pending := true;
      return Review(OtherDisplay);
    }

    /** handleSignPersonalMessage. */
    method Handle(p1: nat, p2: nat, data: seq<byte>, signByHash: bool) returns (r: Reply)
      modifies this
      ensures (Abs(), r) == HandleMessage(keys, old(Abs()), p1, p2, data, signByHash)
    {
      if !signByHash {
        return Sw(E_MISSING_SETTING_SIGN_BY_HASH);
      }
      var chunk := data;
      if Opens(p1) {
        var (taken, read) := ReadPath(data, path);
        path := read;
        if taken.None? {
          ClearContext();
          return Sw(E_INCORRECT_BIP32_PATH);
        }
        var rest := data[taken.value..];
        if |rest| < 4 {
          ClearContext();
          return Sw(E_INCORRECT_LENGTH);
        }
        remaining := Declared(rest);
        initialized, hashed := true, Header(remaining);
        chunk := rest[4..];
      } else if p1 != P1_MORE || !initialized {
        return Sw(E_INCORRECT_P1_P2);
      }
      r := HandleChunk(p2, chunk);
    }
  }
}
