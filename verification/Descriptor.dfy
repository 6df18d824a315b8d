/** The bit-packed field descriptors of nanopb/pb.h, 32-bit words read by nanopb/pb_common.c. */
module Descriptor {
  import opened Arith

  /** What a descriptor says about one field. */
  datatype Info = Info(tag: nat, kind: nat, dataOffset: nat, dataSize: nat, sizeOffset: nat, arraySize: nat)

  /** Descriptor formats, named after their length in words. */
  datatype Width = W1 | W2 | W4 | W8

  function Length(w: Width): nat {
    match w
    case W1 => 1
    case W2 => 2
    case W4 => 4
    case W8 => 8
  }

  // Field types

  predicate IsSubmessage(kind: nat) {
    kind % 16 == 0x08 || kind % 16 == 0x09
  }

  predicate IsExtension(kind: nat) {
    kind % 16 == 0x0A
  }

  predicate IsRequired(kind: nat) {
    kind / 16 % 4 == 0
  }

  const TWO24: nat := 0x100_0000
  const TWO28: nat := 0x1000_0000

  // Packing: PB_FIELDINFO_1, _2, _4 and _8

  function Lead(code: nat, f: Info): nat {
    BitOr(BitOr(code, f.tag * 4 % 256), f.kind * 256)
  }

  function Single(f: Info): nat {
    BitOr(BitOr(BitOr(Lead(0, f), f.dataOffset % 256 * 0x1_0000), f.sizeOffset % 16 * TWO24), f.dataSize % 16 * TWO28)
  }

  function PairFirst(f: Info): nat {
    BitOr(BitOr(Lead(1, f), f.arraySize % 0x1000 * 0x1_0000), f.sizeOffset % 16 * TWO28)
  }

  /** The mask 0x3C0 keeps bits 6 to 9 of the tag. */
  function PairSecond(f: Info): nat {
    BitOr(BitOr(f.dataOffset % 0x1_0000, f.dataSize % 0x1000 * 0x1_0000), f.tag / 64 % 16 * TWO28)
  }

  function QuadFirst(f: Info): nat {
    BitOr(Lead(2, f), f.arraySize % 0x1_0000 * 0x1_0000)
  }

  /** The mask 0xFFFFFF00 clears the low byte of the shifted tag. */
  function SizeAndTag(f: Info): nat {
    BitOr(f.sizeOffset, f.tag * 4 / 256 * 256)
  }

  function Pack(w: Width, f: Info): (words: seq<nat>)
    ensures |words| == Length(w)
  {
    match w
    case W1 => [Single(f)]
    case W2 => [PairFirst(f), PairSecond(f)]
    case W4 => [QuadFirst(f), SizeAndTag(f), f.dataOffset, f.dataSize]
    case W8 => [Lead(3, f), SizeAndTag(f), f.dataOffset, f.dataSize, f.arraySize, 0, 0, 0]
  }

  /** The static assertions on each width, with 16-bit sizes; a single word describes arrays of one item only. */
  predicate Fits(w: Width, f: Info) {
    f.kind <= 0xFF &&
    match w
    case W1 => f.tag < 0x40 && f.dataOffset < 0x100 && f.sizeOffset < 0x10 && f.dataSize < 0x10 && f.arraySize == 1
    case W2 =>
      f.tag < 0x400 && f.dataOffset < 0x1_0000 && f.sizeOffset < 0x10 && f.dataSize < 0x1000 && f.arraySize < 0x1000
    case _ =>
      f.tag < 0x1_0000 && f.dataOffset < 0x1_0000 && f.sizeOffset < 0x80 && f.dataSize < 0x1_0000 &&
      f.arraySize < 0x1_0000
  }

  // Unpacking: the switch of load_descriptor_values

  function WidthOf(word0: nat): Width {
    if word0 % 4 == 0 then W1 else if word0 % 4 == 1 then W2 else if word0 % 4 == 2 then W4 else W8
  }

  function KindOf(word0: nat): nat {
    word0 / 256 % 256
  }

  function TagBitsOf(word0: nat): nat {
    word0 / 4 % 64
  }

  /** Assignment to a pb_size_t. */
  function Size16(x: nat): nat {
    x % 0x1_0000
  }

  function Unpack(words: seq<nat>): Info
    requires |words| > 0 && |words| >= Length(WidthOf(words[0]))
  {
    var word0 := words[0];
    match WidthOf(word0)
    case W1 =>
      Info(TagBitsOf(word0), KindOf(word0), word0 / 0x1_0000 % 256, word0 / TWO28 % 16, word0 / TWO24 % 16, 1)
    case W2 =>
      Info(BitOr(TagBitsOf(word0), words[1] / TWO28 * 64), KindOf(word0), words[1] % 0x1_0000,
           words[1] / 0x1_0000 % 0x1000, word0 / TWO28 % 16, word0 / 0x1_0000 % 0x1000)
    case W4 =>
      Info(Size16(BitOr(TagBitsOf(word0), words[1] / 256 * 64)), KindOf(word0), words[2], Size16(words[3]),
           words[1] % 256, word0 / 0x1_0000)
    case W8 =>
      Info(Size16(BitOr(TagBitsOf(word0), words[1] / 256 * 64)), KindOf(word0), words[2], Size16(words[3]),
           words[1] % 256, Size16(words[4]))
  }

  // Disjoint parts of a word

  lemma {:induction false} OrAt2(lo: nat, hi: nat)
    requires lo < 4
    ensures BitOr(lo, hi * 4) == lo + hi * 4
  {
    assert Pow(2, 2) == 4;
    BitOrDisjoint(hi, lo, 2);
  }

  lemma {:induction false} OrAt6(lo: nat, hi: nat)
    requires lo < 64
    ensures BitOr(lo, hi * 64) == lo + hi * 64
  {
    assert Pow(2, 6) == 64;
    BitOrDisjoint(hi, lo, 6);
  }

  lemma {:induction false} OrAt8(lo: nat, hi: nat)
    requires lo < 256
    ensures BitOr(lo, hi * 256) == lo + hi * 256
  {
    Pow2Words();
    BitOrDisjoint(hi, lo, 8);
  }

  lemma {:induction false} OrAt16(lo: nat, hi: nat)
    requires lo < 0x1_0000
    ensures BitOr(lo, hi * 0x1_0000) == lo + hi * 0x1_0000
  {
    Pow2Words();
    BitOrDisjoint(hi, lo, 16);
  }

  lemma {:induction false} HighPowers()
    ensures Pow(2, 24) == TWO24 && Pow(2, 28) == TWO28
  {
    Pow2Words();
    PowAdd(2, 8, 16);
    assert Pow(2, 4) == 16;
    PowAdd(2, 4, 24);
  }

  lemma {:induction false} OrAt24(lo: nat, hi: nat)
    requires lo < TWO24
    ensures BitOr(lo, hi * TWO24) == lo + hi * TWO24
  {
    HighPowers();
    BitOrDisjoint(hi, lo, 24);
  }

  lemma {:induction false} OrAt28(lo: nat, hi: nat)
    requires lo < TWO28
    ensures BitOr(lo, hi * TWO28) == lo + hi * TWO28
  {
    HighPowers();
    BitOrDisjoint(hi, lo, 28);
  }

  /** Two bits up, the low six bits of a tag fill the first byte. */
  lemma {:induction false} TagShift(tag: nat)
    ensures tag * 4 % 256 == tag % 64 * 4 && tag * 4 / 256 == tag / 64 && tag % 64 < 64
  {
    DivMul(tag, 64);
    DivModUnique(tag * 4, 256, tag / 64, tag % 64 * 4);
  }

  lemma {:induction false} LeadParts(code: nat, f: Info)
    requires code < 4 && f.kind < 256
    ensures Lead(code, f) == code + f.tag % 64 * 4 + f.kind * 256 < 0x1_0000
  {
    TagShift(f.tag);
    JoinLead(code, f.tag % 64, f.kind);
  }

  lemma {:induction false} JoinLead(code: nat, t: nat, kind: nat)
    requires code < 4 && t < 64
    ensures BitOr(BitOr(code, t * 4), kind * 256) == code + t * 4 + kind * 256
  {
    OrAt2(code, t);
    OrAt8(code + t * 4, kind);
  }

  /** Reading back the parts that every first word starts with. */
  lemma {:induction false} LeadRead(word: nat, code: nat, tagBits: nat, kind: nat, top: nat)
    requires code < 4 && tagBits < 64 && kind < 256 && word == code + tagBits * 4 + kind * 256 + top * 0x1_0000
    ensures word % 4 == code && TagBitsOf(word) == tagBits && KindOf(word) == kind && word / 0x1_0000 == top
  {
    DivModUnique(word, 4, tagBits + kind * 64 + top * 0x4000, code);
    DivModUnique(word / 4, 64, kind + top * 256, tagBits);
    DivModUnique(word, 256, kind + top * 256, code + tagBits * 4);
    DivModUnique(word / 256, 256, top, kind);
    DivModUnique(word, 0x1_0000, top, code + tagBits * 4 + kind * 256);
  }

  lemma {:induction false} TopBytes(word: nat, top: nat)
    requires word / 0x1_0000 == top
    ensures word / TWO24 == top / 256 && word / TWO28 == top / 4096
  {
    DivDiv(word, 0x1_0000, 256);
    DivDiv(word, 0x1_0000, 4096);
  }

  /** The parts of a single word do not overlap, so joining them adds them. */
  lemma {:induction false} SingleSum(f: Info)
    requires f.kind <= 0xFF
    ensures
      Single(f) ==
      f.tag % 64 * 4 + f.kind * 256 + f.dataOffset % 256 * 0x1_0000 + f.sizeOffset % 16 * TWO24 +
      f.dataSize % 16 * TWO28
  {
    var o, s, d := f.dataOffset % 256, f.sizeOffset % 16, f.dataSize % 16;
    LeadParts(0, f);
    OrAt16(Lead(0, f), o);
    OrAt24(Lead(0, f) + o * 0x1_0000, s);
    OrAt28(Lead(0, f) + o * 0x1_0000 + s * TWO24, d);
  }

  lemma {:induction false} SingleRead(word: nat, tagBits: nat, kind: nat, o: nat, s: nat, d: nat)
    requires tagBits < 64 && kind < 256 && o < 256 && s < 16 && d < 16
    requires word == tagBits * 4 + kind * 256 + o * 0x1_0000 + s * TWO24 + d * TWO28
    ensures word % 4 == 0 && TagBitsOf(word) == tagBits && KindOf(word) == kind
    ensures word / 0x1_0000 % 256 == o && word / TWO28 % 16 == d && word / TWO24 % 16 == s
  {
    var top := o + s * 256 + d * 4096;
    LeadRead(word, 0, tagBits, kind, top);
    TopBytes(word, top);
    TopParts(o, s, d, top);
  }

  lemma {:induction false} SingleWord(f: Info)
    requires f.kind <= 0xFF
    ensures Single(f) % 4 == 0 && TagBitsOf(Single(f)) == f.tag % 64 && KindOf(Single(f)) == f.kind
    ensures Single(f) / 0x1_0000 % 256 == f.dataOffset % 256
    ensures Single(f) / TWO28 % 16 == f.dataSize % 16 && Single(f) / TWO24 % 16 == f.sizeOffset % 16
  {
    SingleSum(f);
    SingleRead(Single(f), f.tag % 64, f.kind, f.dataOffset % 256, f.sizeOffset % 16, f.dataSize % 16);
  }

  lemma {:induction false} TopParts(o: nat, s: nat, d: nat, top: nat)
    requires o < 256 && s < 16 && d < 16 && top == o + s * 256 + d * 4096
    ensures top % 256 == o && top / 256 % 16 == s && top / 4096 % 16 == d
  {
    DivModUnique(top, 256, s + d * 16, o);
    DivModUnique(s + d * 16, 16, d, s);
    DivModUnique(top, 4096, d, o + s * 256);
    SmallMod(d, 16);
  }

  lemma {:induction false} PairFields(f: Info)
    requires Fits(W2, f)
    ensures f.arraySize % 0x1000 == f.arraySize && f.sizeOffset % 16 == f.sizeOffset
    ensures f.dataOffset % 0x1_0000 == f.dataOffset && f.dataSize % 0x1000 == f.dataSize
    ensures f.tag / 64 % 16 == f.tag / 64 < 16
  {
    SmallMod(f.arraySize, 0x1000);
    SmallMod(f.sizeOffset, 16);
    SmallMod(f.dataOffset, 0x1_0000);
    SmallMod(f.dataSize, 0x1000);
    SmallMod(f.tag / 64, 16);
  }

  /** A 12-bit and a 4-bit part in the upper half of a word. */
  lemma {:induction false} UpperHalf(word: nat, a: nat, b: nat)
    requires a < 0x1000 && b < 16 && word / 0x1_0000 == a + b * 0x1000
    ensures word / 0x1_0000 % 0x1000 == a && word / TWO28 == b && word / TWO28 % 16 == b
  {
    TopBytes(word, a + b * 0x1000);
    DivModUnique(a + b * 0x1000, 0x1000, b, a);
    SmallMod(b, 16);
  }

  lemma {:induction false} PairFirstWord(f: Info)
    requires Fits(W2, f)
    ensures PairFirst(f) % 4 == 1 && TagBitsOf(PairFirst(f)) == f.tag % 64 && KindOf(PairFirst(f)) == f.kind
    ensures PairFirst(f) / TWO28 % 16 == f.sizeOffset && PairFirst(f) / 0x1_0000 % 0x1000 == f.arraySize
  {
    PairFields(f);
    var lead, a, b := Lead(1, f), f.arraySize, f.sizeOffset;
    LeadParts(1, f);
    OrAt16(lead, a);
    OrAt28(lead + a * 0x1_0000, b);
    LeadRead(PairFirst(f), 1, f.tag % 64, f.kind, a + b * 0x1000);
    UpperHalf(PairFirst(f), a, b);
  }

  lemma {:induction false} PairSecondWord(f: Info)
    requires Fits(W2, f)
    ensures BitOr(f.tag % 64, PairSecond(f) / TWO28 * 64) == f.tag
    ensures PairSecond(f) % 0x1_0000 == f.dataOffset && PairSecond(f) / 0x1_0000 % 0x1000 == f.dataSize
  {
    PairFields(f);
    var high := f.tag / 64;
    OrAt16(f.dataOffset, f.dataSize);
    OrAt28(f.dataOffset + f.dataSize * 0x1_0000, high);
    DivModUnique(PairSecond(f), 0x1_0000, f.dataSize + high * 0x1000, f.dataOffset);
    UpperHalf(PairSecond(f), f.dataSize, high);
    OrAt6(f.tag % 64, high);
  }

  lemma {:induction false} QuadFirstWord(f: Info)
    requires Fits(W4, f)
    ensures QuadFirst(f) % 4 == 2 && TagBitsOf(QuadFirst(f)) == f.tag % 64 && KindOf(QuadFirst(f)) == f.kind
    ensures QuadFirst(f) / 0x1_0000 == f.arraySize
  {
    LeadParts(2, f);
    SmallMod(f.arraySize, 0x1_0000);
    OrAt16(Lead(2, f), f.arraySize);
    LeadRead(QuadFirst(f), 2, f.tag % 64, f.kind, f.arraySize);
  }

  lemma {:induction false} OctFirstWord(f: Info)
    requires Fits(W8, f)
    ensures Lead(3, f) % 4 == 3 && TagBitsOf(Lead(3, f)) == f.tag % 64 && KindOf(Lead(3, f)) == f.kind
  {
    LeadParts(3, f);
    LeadRead(Lead(3, f), 3, f.tag % 64, f.kind, 0);
  }

  lemma {:induction false} JoinSizeTag(size: nat, high: nat, low: nat)
    requires size < 256 && low < 64
    ensures BitOr(size, high * 256) / 256 == high && BitOr(size, high * 256) % 256 == size
    ensures BitOr(low, high * 64) == high * 64 + low
  {
    OrAt8(size, high);
    DivModUnique(size + high * 256, 256, high, size);
    OrAt6(low, high);
  }

  lemma {:induction false} SizeAndTagWord(f: Info)
    requires Fits(W4, f)
    ensures BitOr(f.tag % 64, SizeAndTag(f) / 256 * 64) == f.tag && SizeAndTag(f) % 256 == f.sizeOffset
  {
    var high := f.tag / 64;
    TagShift(f.tag);
    JoinSizeTag(f.sizeOffset, high, f.tag % 64);
    DivMul(f.tag, 64);
  }

  lemma {:induction false} WideFields(f: Info)
    requires Fits(W4, f)
    ensures Size16(f.tag) == f.tag && Size16(f.dataSize) == f.dataSize && Size16(f.arraySize) == f.arraySize
  {
    SmallMod(f.tag, 0x1_0000);
    SmallMod(f.dataSize, 0x1_0000);
    SmallMod(f.arraySize, 0x1_0000);
  }

  /** Every width keeps what fits it, and its first word alone tells the width, the type and six bits of the tag. */
  lemma {:induction false} UnpackPacked(w: Width, f: Info)
    requires Fits(w, f)
    ensures WidthOf(Pack(w, f)[0]) == w && Unpack(Pack(w, f)) == f
    ensures KindOf(Pack(w, f)[0]) == f.kind && TagBitsOf(Pack(w, f)[0]) == f.tag % 64
  {
    match w
    case W1 =>
      SingleWord(f);
      SmallFields(f);
    case W2 =>
      PairFirstWord(f);
      PairSecondWord(f);
    case W4 =>
      QuadFirstWord(f);
      SizeAndTagWord(f);
      WideFields(f);
    case W8 =>
      OctFirstWord(f);
      SizeAndTagWord(f);
      WideFields(f);
  }

  // The documented layout

  /** Parts of a word from its lowest bit on, each with its number of bits. */
  function Joined(parts: seq<(nat, nat)>): nat {
    if parts == [] then 0 else parts[0].0 + Pow(2, parts[0].1) * Joined(parts[1..])
  }

  lemma {:induction false} JoinedFirst(value: nat, bits: nat, rest: seq<(nat, nat)>)
    ensures Joined([(value, bits)] + rest) == value + Pow(2, bits) * Joined(rest)
    ensures Joined([(value, bits)]) == value
  {
    assert ([(value, bits)] + rest)[1..] == rest && [(value, bits)][1..] == [];
  }

  lemma {:induction false} PartPowers()
    ensures Pow(2, 2) == 4 && Pow(2, 4) == 16 && Pow(2, 6) == 64 && Pow(2, 8) == 256
    ensures Pow(2, 12) == 0x1000 && Pow(2, 16) == 0x1_0000
  {
    assert Pow(2, 2) == 4 && Pow(2, 4) == 16 && Pow(2, 6) == 64;
    Pow2Words();
    PowAdd(2, 6, 6);
  }

  lemma {:induction false} JoinedLead(code: nat, low: nat, kind: nat, rest: seq<(nat, nat)>)
    ensures Joined([(code, 2), (low, 6), (kind, 8)] + rest) == code + low * 4 + kind * 256 + Joined(rest) * 0x1_0000
  {
    PartPowers();
    JoinedFirst(kind, 8, rest);
    JoinedFirst(low, 6, [(kind, 8)] + rest);
    JoinedFirst(code, 2, [(low, 6)] + ([(kind, 8)] + rest));
    assert [(code, 2), (low, 6), (kind, 8)] + rest == [(code, 2)] + ([(low, 6)] + ([(kind, 8)] + rest));
  }

  lemma {:induction false} JoinedPair(a: nat, bits: nat, b: nat, bits': nat)
    ensures Joined([(a, bits), (b, bits')]) == a + b * Pow(2, bits)
  {
    JoinedFirst(b, bits', []);
    JoinedFirst(a, bits, [(b, bits')]);
    assert [(a, bits)] + [(b, bits')] == [(a, bits), (b, bits')];
  }

  lemma {:induction false} JoinedTriple(a: nat, bits: nat, b: nat, bits': nat, c: nat, bits'': nat)
    ensures Joined([(a, bits), (b, bits'), (c, bits'')]) == a + (b + c * Pow(2, bits')) * Pow(2, bits)
  {
    JoinedPair(b, bits', c, bits'');
    JoinedFirst(a, bits, [(b, bits'), (c, bits'')]);
    assert [(a, bits)] + [(b, bits'), (c, bits'')] == [(a, bits), (b, bits'), (c, bits'')];
  }

  /** The words of a field as nanopb/pb.h documents them. */
  function Layout(w: Width, f: Info): seq<nat> {
    var low, high := (f.tag % 64, 6), f.tag / 64;
    match w
    case W1 => [Joined([(0, 2), low, (f.kind, 8)] + [(f.dataOffset, 8), (f.sizeOffset, 4), (f.dataSize, 4)])]
    case W2 =>
      [Joined([(1, 2), low, (f.kind, 8)] + [(f.arraySize, 12), (f.sizeOffset, 4)]),
       Joined([(f.dataOffset, 16), (f.dataSize, 12), (high, 4)])]
    case W4 =>
      [Joined([(2, 2), low, (f.kind, 8)] + [(f.arraySize, 16)]), Joined([(f.sizeOffset, 8), (high, 24)]),
       f.dataOffset, f.dataSize]
    case W8 =>
      [Joined([(3, 2), low, (f.kind, 8)] + [(0, 16)]), Joined([(f.sizeOffset, 8), (high, 24)]),
       f.dataOffset, f.dataSize, f.arraySize, 0, 0, 0]
  }

  lemma {:induction false} SingleLayout(f: Info)
    requires Fits(W1, f)
    ensures Single(f) ==
            Joined([(0, 2), (f.tag % 64, 6), (f.kind, 8)] + [(f.dataOffset, 8), (f.sizeOffset, 4), (f.dataSize, 4)])
  {
    PartPowers();
    SingleSum(f);
    SmallFields(f);
    JoinedTriple(f.dataOffset, 8, f.sizeOffset, 4, f.dataSize, 4);
    JoinedLead(0, f.tag % 64, f.kind, [(f.dataOffset, 8), (f.sizeOffset, 4), (f.dataSize, 4)]);
  }

  lemma {:induction false} PairFirstLayout(f: Info)
    requires Fits(W2, f)
    ensures PairFirst(f) == Joined([(1, 2), (f.tag % 64, 6), (f.kind, 8)] + [(f.arraySize, 12), (f.sizeOffset, 4)])
  {
    PartPowers();
    PairFields(f);
    LeadParts(1, f);
    OrAt16(Lead(1, f), f.arraySize);
    OrAt28(Lead(1, f) + f.arraySize * 0x1_0000, f.sizeOffset);
    JoinedPair(f.arraySize, 12, f.sizeOffset, 4);
    JoinedLead(1, f.tag % 64, f.kind, [(f.arraySize, 12), (f.sizeOffset, 4)]);
  }

  lemma {:induction false} PairSecondLayout(f: Info)
    requires Fits(W2, f)
    ensures PairSecond(f) == Joined([(f.dataOffset, 16), (f.dataSize, 12), (f.tag / 64, 4)])
  {
    PartPowers();
    PairFields(f);
    OrAt16(f.dataOffset, f.dataSize);
    OrAt28(f.dataOffset + f.dataSize * 0x1_0000, f.tag / 64);
    JoinedTriple(f.dataOffset, 16, f.dataSize, 12, f.tag / 64, 4);
  }

  lemma {:induction false} WideLayout(f: Info)
    requires Fits(W4, f)
    ensures QuadFirst(f) == Joined([(2, 2), (f.tag % 64, 6), (f.kind, 8)] + [(f.arraySize, 16)])
    ensures Lead(3, f) == Joined([(3, 2), (f.tag % 64, 6), (f.kind, 8)] + [(0, 16)])
    ensures SizeAndTag(f) == Joined([(f.sizeOffset, 8), (f.tag / 64, 24)])
  {
    PartPowers();
    TagShift(f.tag);
    LeadParts(2, f);
    LeadParts(3, f);
    SmallMod(f.arraySize, 0x1_0000);
    OrAt16(Lead(2, f), f.arraySize);
    OrAt8(f.sizeOffset, f.tag / 64);
    JoinedFirst(f.arraySize, 16, []);
    JoinedFirst(0, 16, []);
    JoinedLead(2, f.tag % 64, f.kind, [(f.arraySize, 16)]);
    JoinedLead(3, f.tag % 64, f.kind, [(0, 16)]);
    JoinedPair(f.sizeOffset, 8, f.tag / 64, 24);
  }

  /** What the macros pack is the documented layout. */
  lemma {:induction false} PackIsLayout(w: Width, f: Info)
    requires Fits(w, f)
    ensures Pack(w, f) == Layout(w, f)
  {
    match w
    case W1 => SingleLayout(f);
    case W2 =>
      PairFirstLayout(f);
      PairSecondLayout(f);
    case _ => WideLayout(f);
  }

  /** The three parts of a field type: 4 bits of data type, 2 bits of rule and 2 bits of allocation. */
  lemma {:induction false} KindParts(ltype: nat, htype: nat, atype: nat)
    requires ltype < 16 && htype < 4 && atype < 4
    ensures
      var kind := atype * 64 + htype * 16 + ltype;
      && (IsSubmessage(kind) <==> ltype == 8 || ltype == 9) && (IsExtension(kind) <==> ltype == 10)
      && (IsRequired(kind) <==> htype == 0)
  {
    var kind := atype * 64 + htype * 16 + ltype;
    DivModUnique(kind, 16, atype * 4 + htype, ltype);
    DivModUnique(atype * 4 + htype, 4, atype, htype);
  }

  lemma {:induction false} SmallFields(f: Info)
    requires f.tag < 0x40 && f.dataOffset < 0x100 && f.sizeOffset < 0x10 && f.dataSize < 0x10
    ensures f.tag % 64 == f.tag && f.dataOffset % 256 == f.dataOffset
    ensures f.sizeOffset % 16 == f.sizeOffset && f.dataSize % 16 == f.dataSize
  {
    SmallMod(f.tag, 64);
    SmallMod(f.dataOffset, 256);
    SmallMod(f.sizeOffset, 16);
    SmallMod(f.dataSize, 16);
  }

  /** The assertion on single words admits arrays of size 0 as well, but they come back with size 1. */
  lemma {:induction false} SingleKeepsIff(f: Info)
    requires f.kind <= 0xFF && f.tag < 0x40 && f.dataOffset < 0x100 && f.sizeOffset < 0x10 && f.dataSize < 0x10
    requires f.arraySize <= 1
    ensures WidthOf(Pack(W1, f)[0]) == W1
    ensures Unpack(Pack(W1, f)) == f <==> f.arraySize == 1
  {
    SingleWord(f);
    SmallFields(f);
  }

  // Tables

  datatype Entry = Entry(width: Width, info: Info)

  predicate AllFit(list: seq<Entry>) {
    forall i :: 0 <= i < |list| ==> Fits(list[i].width, list[i].info)
  }

  /** The field_info array of a message. */
  function Words(list: seq<Entry>): seq<nat> {
    if list == [] then [] else Pack(list[0].width, list[0].info) + Words(list[1..])
  }

  /** Words before entry i. */
  function Offset(list: seq<Entry>, i: nat): nat
    requires i <= |list|
  {
    if i == 0 then 0 else Length(list[0].width) + Offset(list[1..], i - 1)
  }

  /** How many of the first i fields have a submessage type. */
  function Submessages(list: seq<Entry>, i: nat): nat
    requires i <= |list|
  {
    if i == 0 then 0 else Submessages(list, i - 1) + if IsSubmessage(list[i - 1].info.kind) then 1 else 0
  }

  function RequiredFields(list: seq<Entry>, i: nat): nat
    requires i <= |list|
  {
    if i == 0 then 0 else RequiredFields(list, i - 1) + if IsRequired(list[i - 1].info.kind) then 1 else 0
  }

  lemma {:induction false} OffsetStep(list: seq<Entry>, i: nat)
    requires i < |list|
    ensures Offset(list, i + 1) == Offset(list, i) + Length(list[i].width)
  {
    if i == 0 {
    } else {
      OffsetStep(list[1..], i - 1);
    }
  }

  lemma {:induction false} WordsFrom(list: seq<Entry>, i: nat)
    requires i <= |list|
    ensures Offset(list, i) <= |Words(list)| && Words(list)[Offset(list, i)..] == Words(list[i..])
  {
    if i == 0 {
      assert list[0..] == list;
    } else {
      WordsFrom(list[1..], i - 1);
      DropConcat(Pack(list[0].width, list[0].info), Words(list[1..]), Offset(list[1..], i - 1));
      assert list[1..][i - 1..] == list[i..];
    }
  }

  lemma {:induction false} DropConcat(a: seq<nat>, b: seq<nat>, k: nat)
    requires k <= |b|
    ensures (a + b)[|a| + k..] == b[k..]
  {}

  lemma {:induction false} OffsetBound(list: seq<Entry>, i: nat)
    requires i < |list|
    ensures Offset(list, i) + Length(list[i].width) <= |Words(list)|
    ensures Words(list)[Offset(list, i)..Offset(list, i) + Length(list[i].width)] == Pack(list[i].width, list[i].info)
  {
    WordsFrom(list, i);
    var words, k, n := Words(list), Offset(list, i), Length(list[i].width);
    assert words[k..][..n] == words[k..k + n];
  }

  /** Walking the words: at its offset, every entry of every table reads back, whatever the mix of widths. */
  lemma {:induction false} EntryAt(words: seq<nat>, list: seq<Entry>, i: nat)
    requires AllFit(list) && i < |list| && words == Words(list)
    ensures Offset(list, i) + Length(list[i].width) <= |words|
    ensures WidthOf(words[Offset(list, i)]) == list[i].width
    ensures KindOf(words[Offset(list, i)]) == list[i].info.kind
    ensures TagBitsOf(words[Offset(list, i)]) == list[i].info.tag % 64
    ensures Unpack(words[Offset(list, i)..Offset(list, i) + Length(list[i].width)]) == list[i].info
  {
    var e, k := list[i], Offset(list, i);
    OffsetBound(list, i);
    UnpackPacked(e.width, e.info);
    assert words[k] == words[k..k + Length(e.width)][0];
  }
}
