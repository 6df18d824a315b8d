/** A transaction may be cut into chunks at any record boundaries: the device learns the same from them. */
module Chunks {
  import opened Arith
  import opened Varints
  import opened Schema
  import opened Wire
  import opened Split
  import opened Merge
  import opened Capacity
  import opened Transaction

  /** The fee limit that the last fee_limit record of a chunk gives, if it has such a record. */
  function FeeRecord(chunk: seq<byte>): Option<u64> {
    match LastRecord(RAW, DefaultSlots(RAW), chunk, 2)
    case None => None
    case Some(s) => Some(Cast64(IntOf(s)))
  }

  lemma {:induction false} ContractsConcat(a: seq<Value>, b: seq<Value>)
    ensures ContractsOf(a + b) == ContractsOf(a) + ContractsOf(b)
  {
    if a == [] {
      assert a + b == b;
    } else {
      assert (a + b)[1..] == a[1..] + b;
      ContractsConcat(a[1..], b);
    }
  }

  lemma {:induction false} RawIsValid()
    ensures ValidFields(RAW)
  {
    FieldsAreValid(ANY);
    FieldsAreValid(CONTRACT);
    FieldsAreValid(RAW);
  }

  lemma {:induction false} DecodedIsValid(chunk: seq<byte>)
    requires Decode(RAW, chunk).Some?
    ensures ValidFields(RAW) && ValidSlots(RAW, DefaultSlots(RAW)) && ValidSlots(RAW, Decode(RAW, chunk).value)
  {
    RawIsValid();
    DefaultIsValid(RAW);
    DecodeKeepsValid(RAW, DefaultSlots(RAW), chunk);
  }

  /** A chunk holds at most one contract, whatever its bytes. */
  lemma {:induction false} OneContract(chunk: seq<byte>)
    requires ChunkTx(chunk).Some?
    ensures |ChunkTx(chunk).value.contracts| <= 1
  {
    DecodedIsValid(chunk);
    SlotIsValid(RAW, Decode(RAW, chunk).value, 1);
  }

  /** The last fee limit record of a concatenation, and what the decoded fee limits have to do with it. */
  lemma {:induction false} FeeOfConcat(a: seq<byte>, b: seq<byte>)
    requires Decode(RAW, a).Some? && Decode(RAW, b).Some? && Decode(RAW, a + b).Some?
    ensures FeeRecord(a + b) == if FeeRecord(b).Some? then FeeRecord(b) else FeeRecord(a)
  {
    var d, ma := DefaultSlots(RAW), Decode(RAW, a).value;
    DecodedIsValid(a);
    DecodeSplit(RAW, d, a, b);
    LastRecordConcat(RAW, d, a, b, 2);
    LastRecordSame(RAW, ma, d, b, 2);
  }

  lemma {:induction false} FeeOfChunk(chunk: seq<byte>)
    requires ChunkTx(chunk).Some?
    ensures ChunkTx(chunk).value.fee == if FeeRecord(chunk).Some? then FeeRecord(chunk).value else 0
  {
    LastRecordWins(RAW, DefaultSlots(RAW), chunk, 2);
    DefaultSlotAt(RAW, 2);
    SmallMod(0, TWO64);
  }

  /** What a concatenation says, from what its parts say. */
  lemma {:induction false} MergeTx(a: seq<byte>, b: seq<byte>)
    requires ChunkTx(a).Some? && ChunkTx(b).Some? && ChunkTx(a + b).Some?
    ensures
      var ta, tb, tab := ChunkTx(a).value, ChunkTx(b).value, ChunkTx(a + b).value;
      && tab.data == ta.data + tb.data
      && tab.contracts == ta.contracts + tb.contracts
      && tab.fee == (if FeeRecord(b).Some? then FeeRecord(b).value else ta.fee)
      && tb.fee == (if FeeRecord(b).Some? then FeeRecord(b).value else 0)
  {
    FeeOfConcat(a, b);
    FeeOfChunk(a);
    FeeOfChunk(b);
    FeeOfChunk(a + b);
    MergeLists(a, b);
  }

  lemma {:induction false} MergeLists(a: seq<byte>, b: seq<byte>)
    requires ChunkTx(a).Some? && ChunkTx(b).Some? && ChunkTx(a + b).Some?
    ensures ChunkTx(a + b).value.data == ChunkTx(a).value.data + ChunkTx(b).value.data
    ensures ChunkTx(a + b).value.contracts == ChunkTx(a).value.contracts + ChunkTx(b).value.contracts
  {
    var ma, mb, mab := Decode(RAW, a).value, Decode(RAW, b).value, Decode(RAW, a + b).value;
    DecodedIsValid(a);
    ConcatOver(RAW, DefaultSlots(RAW), a, b);
    OverAt(RAW, ma, mb, mab, 0);
    OverAt(RAW, ma, mb, mab, 1);
    ContractsConcat(ma[1].vs, mb[1].vs);
  }

  /** In every reachable content a fee limit was seen exactly when it is not zero. */
  predicate Consistent(c: TxContent) {
    c.feeLimitSeen <==> c.feeLimit != 0
  }

  lemma {:induction false} LastOfBoth(a: seq<Call>, b: seq<Call>, before: nat)
    ensures DataBytes(a + b, before) == DataBytes(b, DataBytes(a, before))
  {
    if b == [] {
      assert a + b == a;
    }
  }

  /** `tab` says what `ta` and `tb` say one after the other. */
  predicate Merges(ta: Tx, tb: Tx, tab: Tx) {
    && |tab.contracts| <= 1 && tab.data == ta.data + tb.data && tab.contracts == ta.contracts + tb.contracts
    && (tab.fee == tb.fee || (tab.fee == ta.fee && tb.fee == 0))
  }

  /** The contents agree but for the fee limits, which are the last nonzero ones. */
  predicate SameButFee(c: TxContent, ta: Tx, tb: Tx, tab: Tx, c2: TxContent, c3: TxContent) {
    && Consistent(c2) && Consistent(c3)
    && c3.(feeLimit := 0, feeLimitSeen := false) == c2.(feeLimit := 0, feeLimitSeen := false)
    && c2.feeLimit == (if tb.fee != 0 then tb.fee else if ta.fee != 0 then ta.fee else c.feeLimit)
    && c3.feeLimit == (if tab.fee != 0 then tab.fee else c.feeLimit)
  }

  /** The content before the contract is looked at. */
  function Prepared(c: TxContent, tx: Tx): TxContent {
    WithFee(c, tx.fee).(dataBytes := DataBytes(tx.data, c.dataBytes))
  }

  lemma {:induction false} PreparedMerged(c: TxContent, ta: Tx, tb: Tx, tab: Tx)
    requires Consistent(c) && Merges(ta, tb, tab)
    ensures SameButFee(c, ta, tb, tab, Prepared(Prepared(c, ta), tb), Prepared(c, tab))
  {
    LastOfBoth(ta.data, tb.data, c.dataBytes);
  }

  lemma {:induction false} PlainContent(env: Env, allowed: bool, c: TxContent, tx: Tx)
    requires tx.contracts == [] && ProcessDecoded(env, allowed, c, tx).0.Processing?
    ensures ProcessDecoded(env, allowed, c, tx).1 == Prepared(c, tx)
  {}

  lemma {:induction false} FirstCarries(env: Env, allowed: bool, c: TxContent, ta: Tx, tb: Tx, tab: Tx)
    requires Consistent(c) && Merges(ta, tb, tab) && tb.contracts == []
    requires ProcessDecoded(env, allowed, c, ta).0.Processing?
    requires ProcessDecoded(env, allowed, ProcessDecoded(env, allowed, c, ta).1, tb).0.Processing?
    ensures ProcessDecoded(env, allowed, c, tab).0.Processing?
    ensures SameButFee(c, ta, tb, tab, ProcessDecoded(env, allowed, ProcessDecoded(env, allowed, c, ta).1, tb).1,
                       ProcessDecoded(env, allowed, c, tab).1)
  {
    assert tab.contracts == ta.contracts;
    PreparedMerged(c, ta, tb, tab);
  }

  lemma {:induction false} SecondCarries(env: Env, allowed: bool, c: TxContent, ta: Tx, tb: Tx, tab: Tx)
    requires Consistent(c) && Merges(ta, tb, tab) && ta.contracts == []
    requires ProcessDecoded(env, allowed, c, ta).0.Processing?
    requires ProcessDecoded(env, allowed, ProcessDecoded(env, allowed, c, ta).1, tb).0.Processing?
    ensures ProcessDecoded(env, allowed, c, tab).0.Processing?
    ensures SameButFee(c, ta, tb, tab, ProcessDecoded(env, allowed, ProcessDecoded(env, allowed, c, ta).1, tb).1,
                       ProcessDecoded(env, allowed, c, tab).1)
  {
    assert tab.contracts == tb.contracts;
    PlainContent(env, allowed, c, ta);
    PreparedMerged(c, ta, tb, tab);
  }

  /** Two chunks accepted in turn and their concatenation leave the same content but for the fee limit. */
  lemma {:induction false} SplitSame(env: Env, allowed: bool, c: TxContent, a: seq<byte>, b: seq<byte>)
    requires Consistent(c) && Accepted(env, allowed, c, a)
    requires Accepted(env, allowed, ProcessTx(env, allowed, c, a).1, b) && ChunkTx(a + b).Some?
    ensures Accepted(env, allowed, c, a + b)
    ensures SameButFee(c, ChunkTx(a).value, ChunkTx(b).value, ChunkTx(a + b).value,
                       ProcessTx(env, allowed, ProcessTx(env, allowed, c, a).1, b).1,
                       ProcessTx(env, allowed, c, a + b).1)
  {
    MergeTx(a, b);
    OneContract(a + b);
    var ta, tb, tab := ChunkTx(a).value, ChunkTx(b).value, ChunkTx(a + b).value;
    if ta.contracts == [] {
      SecondCarries(env, allowed, c, ta, tb, tab);
    } else {
      assert |tb.contracts| == 0;
      FirstCarries(env, allowed, c, ta, tb, tab);
    }
  }

  /**
   * Two chunks that are accepted one after the other, and whose concatenation decodes, leave the same
   * content as the concatenation, except exactly when the second takes back the fee limit of the first
   * with an explicit zero.
   */
  lemma {:induction false} SplitInvariant(env: Env, allowed: bool, c: TxContent, a: seq<byte>, b: seq<byte>)
    requires Consistent(c) && Accepted(env, allowed, c, a)
    requires Accepted(env, allowed, ProcessTx(env, allowed, c, a).1, b) && ChunkTx(a + b).Some?
    ensures Accepted(env, allowed, c, a + b) && Consistent(ProcessTx(env, allowed, c, a + b).1)
    ensures
      ProcessTx(env, allowed, ProcessTx(env, allowed, c, a).1, b).1 == ProcessTx(env, allowed, c, a + b).1 <==>
      !(FeeRecord(b) == Some(0) && ChunkTx(a).value.fee != 0 && c.feeLimit == 0)
  {
    MergeTx(a, b);
    SplitSame(env, allowed, c, a, b);
    FirstFee(env, allowed, c, ChunkTx(a).value);
  }

  /** An accepted fee limit is the one known before, if any was. */
  lemma {:induction false} FirstFee(env: Env, allowed: bool, c: TxContent, tx: Tx)
    requires Consistent(c) && ProcessDecoded(env, allowed, c, tx).0.Processing?
    ensures tx.fee != 0 && c.feeLimit != 0 ==> tx.fee == c.feeLimit
    ensures Consistent(ProcessDecoded(env, allowed, c, tx).1)
    ensures ProcessDecoded(env, allowed, c, tx).1.feeLimit == if tx.fee != 0 then tx.fee else c.feeLimit
  {}

  // The exception is real: a chunk with fee_limit 5, then one with fee_limit 0

  /** The three bytes of a small fee_limit record. */
  function FeeBytes(v: byte): seq<byte> {
    [0x90, 0x01, v]
  }

  lemma {:induction false} TagOfFee(v: byte)
    ensures Read32(FeeBytes(v)) == Parsed(18 * 8, [v])
  {
    assert Varint(144) == [0x90, 0x01];
    assert FeeBytes(v) == Varint(144) + [v];
    Read32RoundTrip(144, [v]);
  }

  lemma {:induction false} ValueOfFee(v: byte)
    requires v < 128
    ensures DecodeInt(Int(8), WT_VARINT, [v]) == Parsed(IntV(v), [])
  {
    assert Varint(v) + [] == [v];
    Read64RoundTrip(v, []);
  }

  lemma {:induction false} FindFee()
    ensures Find(RAW, 18) == 2
  {
    assert RAW[0].tag == 10 && RAW[1].tag == 11 && RAW[2].tag == 18;
  }

  lemma {:induction false} FeeOver(m: Slots, v: byte)
    requires |m| == |RAW| && m[2].One? && v < 128
    ensures DecodeFields(RAW, m, FeeBytes(v)) == Some(m[2 := One(IntV(v))])
  {
    TagOfFee(v);
    ValueOfFee(v);
    FindFee();
    assert DecodeField(RAW[2], m[2], WT_VARINT, [v]) == Parsed(One(IntV(v)), []);
    assert DecodeRecord(RAW, m, FeeBytes(v)) == Parsed(m[2 := One(IntV(v))], []);
    assert DecodeFields(RAW, m[2 := One(IntV(v))], []) == Some(m[2 := One(IntV(v))]);
  }

  /** The message that holds nothing but a fee limit. */
  function FeeOnly(v: byte): Slots {
    [Calls([]), Rep([]), One(IntV(v))]
  }

  lemma {:induction false} DefaultRaw()
    ensures DefaultSlots(RAW) == FeeOnly(0)
  {
    DefaultSlotAt(RAW, 0);
    DefaultSlotAt(RAW, 1);
    DefaultSlotAt(RAW, 2);
  }

  lemma {:induction false} UpdateFee(v: byte, w: byte)
    ensures FeeOnly(v)[2 := One(IntV(w))] == FeeOnly(w)
  {}

  lemma {:induction false} FeeChunk(v: byte)
    requires v < 128
    ensures Decode(RAW, FeeBytes(v)) == Some(FeeOnly(v))
  {
    DefaultRaw();
    FeeOver(DefaultSlots(RAW), v);
    UpdateFee(0, v);
  }

  lemma {:induction false} FeePair(m: Slots, v: byte, w: byte)
    requires |m| == |RAW| && m[2].One? && v < 128 && w < 128
    ensures DecodeFields(RAW, m, FeeBytes(v) + FeeBytes(w)) == Some(m[2 := One(IntV(w))])
  {
    var n := m[2 := One(IntV(v))];
    FeeOver(m, v);
    DecodeSplit(RAW, m, FeeBytes(v), FeeBytes(w));
    FeeOver(n, w);
    assert n[2 := One(IntV(w))] == m[2 := One(IntV(w))];
  }

  lemma {:induction false} FeeChunkPair(v: byte, w: byte)
    requires v < 128 && w < 128
    ensures Decode(RAW, FeeBytes(v) + FeeBytes(w)) == Some(FeeOnly(w))
  {
    DefaultRaw();
    FeePair(DefaultSlots(RAW), v, w);
    UpdateFee(0, w);
  }

  lemma {:induction false} FeeOnlyTx(v: byte)
    ensures TxOf(FeeOnly(v)) == Tx([], [], v)
  {
    SmallMod(v, TWO64);
  }

  lemma {:induction false} ProcessFee(env: Env, allowed: bool, c: TxContent, v: u64)
    requires (!c.feeLimitSeen || c.feeLimit == v || v == 0) && (allowed || c.dataBytes == 0)
    ensures ProcessDecoded(env, allowed, c, Tx([], [], v)) == (Processing, WithFee(c, v))
  {}

  /** An explicit zero makes the one-shot parse forget the fee limit that the chunks keep. */
  lemma {:induction false} ExplicitZeroForgets(env: Env)
    ensures ProcessTx(env, true, ProcessTx(env, true, EMPTY, FeeBytes(5)).1, FeeBytes(0)).1.feeLimit == 5
    ensures ProcessTx(env, true, EMPTY, FeeBytes(5) + FeeBytes(0)).1.feeLimit == 0
  {
    FeeChunk(5);
    FeeChunk(0);
    FeeChunkPair(5, 0);
    FeeOnlyTx(5);
    FeeOnlyTx(0);
    ProcessFee(env, true, EMPTY, 5);
    ProcessFee(env, true, EMPTY, 0);
    ProcessFee(env, true, WithFee(EMPTY, 5), 0);
  }

  // Any number of chunks

  function Concat(chunks: seq<seq<byte>>): seq<byte> {
    if chunks == [] then [] else chunks[0] + Concat(chunks[1..])
  }

  lemma {:induction false} ConcatAppend(h: seq<seq<byte>>, chunk: seq<byte>)
    ensures Concat(h + [chunk]) == Concat(h) + chunk
  {
    if h == [] {
      assert [chunk][1..] == [] && h + [chunk] == [chunk];
      assert chunk + [] == chunk && Concat(h) + chunk == chunk;
    } else {
      assert (h + [chunk])[1..] == h[1..] + [chunk];
      ConcatAppend(h[1..], chunk);
    }
  }

  /** Chunks processed one after another, if all are accepted. */
  function Chunked(env: Env, allowed: bool, c: TxContent, chunks: seq<seq<byte>>): Option<TxContent>
    decreases |chunks|
  {
    if chunks == [] then Some(c)
    else if !Accepted(env, allowed, c, chunks[0]) then None
    else Chunked(env, allowed, ProcessTx(env, allowed, c, chunks[0]).1, chunks[1..])
  }

  /** Some chunk gives a nonzero fee limit. */
  predicate GivesFee(chunks: seq<seq<byte>>) {
    chunks != [] && ((ChunkTx(chunks[0]).Some? && ChunkTx(chunks[0]).value.fee != 0) || GivesFee(chunks[1..]))
  }

  /** A beginning that consists of chunks decodes whenever the whole does. */
  lemma {:induction false} PrefixDecodes(done: seq<byte>, x: seq<byte>, rest: seq<byte>)
    requires ChunkTx(done).Some? && ChunkTx(x).Some? && ChunkTx(done + (x + rest)).Some?
    ensures ChunkTx(done + x).Some?
  {
    DecodedIsValid(done);
    var d := DefaultSlots(RAW);
    DecodeSplit(RAW, d, done, x + rest);
    RunStays(RAW, Decode(RAW, done).value, d, x, rest);
    DecodeSplit(RAW, d, done, x);
  }

  /** Contents that agree but for the fee limit, which the first may have forgotten. */
  predicate Forgets(o: TxContent, k: TxContent) {
    && Consistent(o) && Consistent(k) && (o.feeLimit == k.feeLimit || o.feeLimit == 0)
    && o.(feeLimit := 0, feeLimitSeen := false) == k.(feeLimit := 0, feeLimitSeen := false)
  }

  /** Forgetting the fee limit never makes a chunk unacceptable. */
  lemma {:induction false} ForgettingAccepts(env: Env, allowed: bool, o: TxContent, k: TxContent, tx: Tx)
    requires Forgets(o, k) && ProcessDecoded(env, allowed, k, tx).0.Processing?
    ensures ProcessDecoded(env, allowed, o, tx).0.Processing?
    ensures Forgets(ProcessDecoded(env, allowed, o, tx).1, ProcessDecoded(env, allowed, k, tx).1)
  {}

  /** `k` is what chunks leave one by one, and `done` is their concatenation. */
  predicate Tracks(env: Env, allowed: bool, c: TxContent, done: seq<byte>, k: TxContent) {
    && Consistent(c) && Accepted(env, allowed, c, done) && Forgets(ProcessTx(env, allowed, c, done).1, k)
    && ProcessTx(env, allowed, c, done).1.feeLimit ==
       (if ChunkTx(done).value.fee != 0 then ChunkTx(done).value.fee else c.feeLimit)
    && (ChunkTx(done).value.fee == 0 || ChunkTx(done).value.fee == k.feeLimit)
    && (c.feeLimit != 0 ==> k.feeLimit == c.feeLimit)
    && (c.feeLimit == 0 && k.feeLimit != 0 ==> FeeRecord(done).Some?)
  }

  lemma {:induction false} TracksFirst(env: Env, allowed: bool, c: TxContent, x: seq<byte>)
    requires Consistent(c) && Accepted(env, allowed, c, x)
    ensures Tracks(env, allowed, c, x, ProcessTx(env, allowed, c, x).1)
  {
    FirstFee(env, allowed, c, ChunkTx(x).value);
    FeeOfChunk(x);
  }

  lemma {:induction false} TracksNext(env: Env, allowed: bool, c: TxContent, done: seq<byte>, k: TxContent,
                                      x: seq<byte>)
    requires Tracks(env, allowed, c, done, k) && Accepted(env, allowed, k, x) && ChunkTx(done + x).Some?
    ensures Tracks(env, allowed, c, done + x, ProcessTx(env, allowed, k, x).1)
  {
    var o := ProcessTx(env, allowed, c, done).1;
    var td, tx, tdx := ChunkTx(done).value, ChunkTx(x).value, ChunkTx(done + x).value;
    ForgettingAccepts(env, allowed, o, k, tx);
    SplitSame(env, allowed, c, done, x);
    MergeTx(done, x);
    FeeOfConcat(done, x);
    FirstFee(env, allowed, k, tx);
    NextTracked(c, td, tx, tdx, k, ProcessTx(env, allowed, o, x).1, ProcessTx(env, allowed, c, done + x).1,
                ProcessTx(env, allowed, k, x).1);
  }

  /** The bookkeeping of one more chunk. */
  lemma {:induction false} NextTracked(c: TxContent, td: Tx, tx: Tx, tdx: Tx, k: TxContent, c2: TxContent,
                                       c3: TxContent, k': TxContent)
    requires SameButFee(c, td, tx, tdx, c2, c3) && Forgets(c2, k')
    requires tdx.fee == tx.fee || (tdx.fee == td.fee && tx.fee == 0)
    requires td.fee == 0 || td.fee == k.feeLimit
    requires c.feeLimit != 0 ==> k.feeLimit == c.feeLimit
    requires k'.feeLimit == (if tx.fee != 0 then tx.fee else k.feeLimit)
    requires tx.fee != 0 && k.feeLimit != 0 ==> tx.fee == k.feeLimit
    ensures Forgets(c3, k') && (tdx.fee == 0 || tdx.fee == k'.feeLimit) &&
            (c.feeLimit != 0 ==> k'.feeLimit == c.feeLimit)
  {}

  lemma {:induction false} TracksAll(env: Env, allowed: bool, c: TxContent, done: seq<byte>, k: TxContent,
                                     chunks: seq<seq<byte>>, whole: seq<byte>)
    requires Tracks(env, allowed, c, done, k) && Chunked(env, allowed, k, chunks).Some?
    requires whole == done + Concat(chunks) && ChunkTx(whole).Some?
    ensures Tracks(env, allowed, c, whole, Chunked(env, allowed, k, chunks).value)
    decreases |chunks|
  {
    if chunks == [] {
      assert whole == done;
    } else {
      var x, rest := chunks[0], Concat(chunks[1..]);
      assert whole == done + (x + rest) && whole == done + x + rest;
      PrefixDecodes(done, x, rest);
      TracksNext(env, allowed, c, done, k, x);
      TracksAll(env, allowed, c, done + x, ProcessTx(env, allowed, k, x).1, chunks[1..], whole);
    }
  }

  /** Chunks leave a fee limit exactly when there was one before or one of them gives one. */
  lemma {:induction false} ChunkedFee(env: Env, allowed: bool, c: TxContent, chunks: seq<seq<byte>>)
    requires Consistent(c) && Chunked(env, allowed, c, chunks).Some?
    ensures Chunked(env, allowed, c, chunks).value.feeLimit != 0 <==> c.feeLimit != 0 || GivesFee(chunks)
    decreases |chunks|
  {
    if chunks == [] {
    } else {
      FirstFee(env, allowed, c, ChunkTx(chunks[0]).value);
      ChunkedFee(env, allowed, ProcessTx(env, allowed, c, chunks[0]).1, chunks[1..]);
    }
  }

  /**
   * However a transaction is cut into chunks: when every chunk is accepted in turn and the whole decodes, the
   * whole is accepted as well. It leaves the same content, except exactly when no fee limit was known before,
   * some chunk gives one, and the last fee limit record of the whole is an explicit zero.
   */
  lemma {:induction false} ChunkingInvariant(env: Env, allowed: bool, c: TxContent, chunks: seq<seq<byte>>)
    requires Consistent(c) && chunks != []
    requires Chunked(env, allowed, c, chunks).Some? && ChunkTx(Concat(chunks)).Some?
    ensures Accepted(env, allowed, c, Concat(chunks))
    ensures
      ProcessTx(env, allowed, c, Concat(chunks)).1 == Chunked(env, allowed, c, chunks).value <==>
      !(c.feeLimit == 0 && GivesFee(chunks) && FeeRecord(Concat(chunks)) == Some(0))
  {
    TracksFirst(env, allowed, c, chunks[0]);
    TracksAll(env, allowed, c, chunks[0], ProcessTx(env, allowed, c, chunks[0]).1, chunks[1..], Concat(chunks));
    ChunkedFee(env, allowed, c, chunks);
    FeeOfChunk(Concat(chunks));
  }
}
