/** The maximum encoded sizes that nanopb's generator computes, and why the encoder never exceeds them. */
module MaxSize {
  import opened Arith
  import opened Varints
  import opened Schema
  import opened Wire
  import opened RoundTrip
  import opened Capacity
  import Encoder

  // Lengths of varints

  lemma {:induction false} VarintMonotone(v: nat, w: nat)
    requires v <= w
    ensures |Varint(v)| <= |Varint(w)|
  {
    VarintIsVarint(w);
    LebBound(Varint(w));
    VarintSize(v, |Varint(w)|);
  }

  /** The length of the longest varint that the generator expects for a value, if it can tell. */
  function VarintMax(value: int): Option<nat> {
    var w := if value < 0 then TWO64 - value else value;
    if |Varint(w)| <= 10 then Some(|Varint(w)|) else None
  }

  /** varint_max_size: the first number of seven-bit groups that leaves nothing over. */
  method VarintMaxSize(value: int) returns (r: Option<nat>)
    ensures r == VarintMax(value)
  {
    var w := if value < 0 then TWO64 - value else value;
    var i := 1;
    while i < 11
      invariant 1 <= i <= 11
      invariant |Varint(w)| >= i
    {
      VarintSize(w, i);
      PowPositive(128, i);
      ShiftedOut(w, Pow(128, i));
      if w / Pow(128, i) == 0 {
        return Some(i);
      }
      i := i + 1;
    }
    return None;
  }

  lemma {:induction false} ShiftedOut(w: nat, p: nat)
    requires p > 0
    ensures w / p == 0 <==> w < p
  {
    if w < p {
      SmallMod(w, p);
    } else {
      DivMul(w, p);
    }
  }

  // What the generator knows beyond the descriptor: enumerators, and the same for submessages

  datatype Decl = Plain | Enum(values: seq<int>) | Sub(decls: seq<Decl>)

  predicate Matches(f: Field, d: Decl) {
    match d
    case Plain => !f.ltype.Message?
    case Enum(values) => (f.ltype.Int? || f.ltype.UInt?) && values != []
    case Sub(decls) => f.ltype.Message? && AllMatch(f.ltype.fields, decls)
  }

  predicate AllMatch(fields: Fields, decls: seq<Decl>) {
    |fields| == |decls| && (fields != [] ==> Matches(fields[0], decls[0]) && AllMatch(fields[1..], decls[1..]))
  }

  /** Enumerations hold declared values, at every depth. */
  predicate Declared(d: Decl, v: Value) {
    match d
    case Plain => true
    case Enum(values) => v.IntV? && v.i in values
    case Sub(decls) => v.MsgV? && |v.slots| == |decls| && AllDeclared(decls, v.slots)
  }

  predicate DeclaredSlot(d: Decl, s: Slot) {
    match s
    case One(v) => Declared(d, v)
    case Opt(o) => o.Some? ==> Declared(d, o.value)
    case Rep(vs) => forall v :: v in vs ==> Declared(d, v)
    case Calls(_) => true
  }

  predicate AllDeclared(decls: seq<Decl>, m: Slots)
    requires |decls| == |m|
  {
    decls != [] ==> DeclaredSlot(decls[0], m[0]) && AllDeclared(decls[1..], m[1..])
  }

  // Sizes

  function Plus(a: Option<nat>, b: Option<nat>): Option<nat> {
    if a.Some? && b.Some? then Some(a.value + b.value) else None
  }

  /** Enum.encoded_size. */
  function EnumSize(values: seq<int>): Option<nat> {
    if values == [] then Some(0)
    else
      var a, b := VarintMax(values[0]), EnumSize(values[1..]);
      if a.Some? && b.Some? then Some(if a.value < b.value then b.value else a.value) else None
  }

  /** The column of maximum sizes in the table of integer types. */
  function IntegerSize(size: nat): nat {
    if size == 1 then 2 else if size == 2 then 3 else if size == 4 then 5 else 10
  }

  /** The size of an item without its tag. */
  function ItemSize(l: LType, d: Decl): Option<nat>
    requires l.Message? ==> d.Sub? && AllMatch(l.fields, d.decls)
    decreases l, 1
  {
    if d.Enum? then EnumSize(d.values)
    else match l
      case Bool => Some(1)
      case Int(_) => Some(10)
      case UInt(size) => Some(IntegerSize(size))
      case SInt(size) => Some(IntegerSize(size))
      case Fixed32 => Some(4)
      case Fixed64 => Some(8)
      case Bytes(maxSize) => Plus(VarintMax(maxSize), Some(maxSize))
      case FixedBytes(length) => Plus(VarintMax(length), Some(length))
      case String(bufsize) => if bufsize == 0 then None else Plus(VarintMax(bufsize), Some(bufsize - 1))
      case Message(fields) =>
        (match MessageSize(fields, d.decls)
         case None => None
         case Some(n) => Plus(Some(n), VarintMax(n)))
      case Callback => None
  }

  /** Field.encoded_size: room for an unpacked array, and a byte more where packing one item costs it. */
  function FieldSize(f: Field, d: Decl): Option<nat>
    requires Matches(f, d)
    decreases f, 2
  {
    match Plus(ItemSize(f.ltype, d), VarintMax(f.tag * 8))
    case None => None
    case Some(n) =>
      if f.rule.Repeated? then Some(f.rule.maxCount * n + if f.rule.maxCount == 1 then 1 else 0) else Some(n)
  }

  /** Message.encoded_size. */
  function MessageSize(fields: Fields, decls: seq<Decl>): Option<nat>
    requires AllMatch(fields, decls)
    decreases fields, 3
  {
    if fields == [] then Some(0)
    else Plus(FieldSize(fields[0], decls[0]), MessageSize(fields[1..], decls[1..]))
  }

  // Bounds

  lemma {:induction false} Pow128Small()
    ensures Pow(128, 1) == 128 && Pow(128, 2) == 0x4000 && Pow(128, 3) == 0x20_0000
  {}

  lemma {:induction false} WordBound(l: LType, i: int)
    requires l.UInt? || l.SInt? || l.Int? || l.Bool?
    requires ValidLType(l) && ValidValue(l, IntV(i))
    ensures 0 <= Word(l, i) < TWO64
    ensures (l.UInt? || l.SInt?) ==> Word(l, i) < Range(l.size)
  {}

  lemma {:induction false} IntegerBound(w: nat, size: nat)
    requires IntSize(size) && w < Range(size)
    ensures |Varint(w)| <= IntegerSize(size)
  {
    Pow128Small();
    Pow128Words();
    VarintSize(w, IntegerSize(size));
  }

  lemma {:induction false} EnumBound(values: seq<int>, i: int)
    requires i in values && EnumSize(values).Some?
    ensures VarintMax(i).Some? && VarintMax(i).value <= EnumSize(values).value
  {
    if values[0] == i {
    } else {
      EnumBound(values[1..], i);
    }
  }

  lemma {:induction false} EnumWord(l: LType, i: int)
    requires (l.Int? || l.UInt?) && ValidLType(l) && ValidValue(l, IntV(i)) && VarintMax(i).Some?
    ensures |Varint(Word(l, i))| <= VarintMax(i).value
  {
    if i < 0 {
      VarintMonotone(i + TWO64, TWO64 - i);
    }
  }

  lemma {:induction false} DelimitedBound(s: seq<byte>, n: nat)
    requires |s| <= n && VarintMax(n).Some?
    ensures |Delimited(s)| <= VarintMax(n).value + n
  {
    VarintMonotone(|s|, n);
  }

  lemma {:induction false} ScalarBound(l: LType, d: Decl, v: Value)
    requires Packable(l) && ValidLType(l) && ValidValue(l, v) && Declared(d, v) && !d.Sub?
    requires d.Enum? ==> l.Int? || l.UInt?
    requires ItemSize(l, d).Some?
    ensures |EncodeValue(l, v)| <= ItemSize(l, d).value
  {
    if d.Enum? {
      EnumBound(d.values, v.i);
      EnumWord(l, v.i);
    } else if !l.Fixed32? && !l.Fixed64? {
      WordBound(l, v.i);
      match l
      case Bool =>
      case Int(_) => IntegerBound(Word(l, v.i), 8);
      case UInt(size) => IntegerBound(Word(l, v.i), size);
      case SInt(size) => IntegerBound(Word(l, v.i), size);
    }
  }

  lemma {:induction false} ItemBound(f: Field, d: Decl, v: Value)
    requires Matches(f, d) && ValidField(f) && ValidValue(f.ltype, v) && ItemSize(f.ltype, d).Some?
    requires Declared(d, v) && ObeysValue(f.ltype, v)
    ensures |EncodeValue(f.ltype, v)| <= ItemSize(f.ltype, d).value
    decreases f, 0
  {
    if Packable(f.ltype) {
      ScalarBound(f.ltype, d, v);
    } else {
      match f.ltype
      case Message(fields) =>
        MessageBound(fields, d.decls, v.slots);
        DelimitedBound(Encode(fields, v.slots), MessageSize(fields, d.decls).value);
      case Bytes(maxSize) => DelimitedBound(v.bytes, maxSize);
      case FixedBytes(length) => DelimitedBound(v.bytes, length);
      case String(bufsize) => VarintMonotone(|v.bytes|, bufsize);
    }
  }

  /** The wire type never lengthens a tag. */
  lemma {:induction false} TagLength(tag: nat, wireType: nat)
    requires wireType < 8
    ensures |Tag(tag, wireType)| == |Varint(tag * 8)|
  {
    var w := tag * 8 + wireType;
    VarintMonotone(tag * 8, w);
    if w >= 128 {
      assert w / 128 == tag * 8 / 128;
    }
  }

  lemma {:induction false} ItemsBound(f: Field, d: Decl, vs: seq<Value>, n: nat)
    requires Matches(f, d) && ValidField(f) && FieldSize(f, d).Some?
    requires n == ItemSize(f.ltype, d).value + |Varint(f.tag * 8)|
    requires AllValid(f.ltype, vs) && forall v :: v in vs ==> Declared(d, v) && ObeysValue(f.ltype, v)
    ensures |EncodeItems(f, vs)| <= |vs| * n
    decreases f, 1, |vs|
  {
    if vs == [] {
    } else {
      FirstValid(f.ltype, vs);
      assert vs[0] in vs && forall v :: v in vs[1..] ==> v in vs;
      ItemBound(f, d, vs[0]);
      TagLength(f.tag, WireType(f.ltype));
      ItemsBound(f, d, vs[1..], n);
      OneMore(|vs| - 1, n);
    }
  }

  lemma {:induction false} OneMore(k: int, n: int)
    ensures (k + 1) * n == k * n + n
  {}

  lemma {:induction false} PackedBound(l: LType, d: Decl, vs: seq<Value>, n: nat)
    requires Packable(l) && ValidLType(l) && !d.Sub? && (d.Enum? ==> l.Int? || l.UInt?)
    requires AllValid(l, vs) && forall v :: v in vs ==> Declared(d, v)
    requires ItemSize(l, d) == Some(n)
    ensures |EncodePacked(l, vs)| <= |vs| * n
  {
    if vs == [] {
    } else {
      FirstValid(l, vs);
      assert vs[0] in vs && forall v :: v in vs[1..] ==> v in vs;
      ScalarBound(l, d, vs[0]);
      PackedBound(l, d, vs[1..], n);
      OneMore(|vs| - 1, n);
    }
  }

  lemma {:induction false} EnumAtMost10(values: seq<int>)
    requires EnumSize(values).Some?
    ensures EnumSize(values).value <= 10
  {
    if values == [] {
    } else {
      EnumAtMost10(values[1..]);
    }
  }

  lemma {:induction false} PackableAtMost10(l: LType, d: Decl)
    requires Packable(l) && ItemSize(l, d).Some?
    ensures ItemSize(l, d).value <= 10
  {
    if d.Enum? {
      EnumAtMost10(d.values);
    }
  }

  /** The length prefix of a packed array costs less than the tags that packing saves. */
  lemma {:induction false} PrefixFits(size: nat, count: nat, n: nat)
    requires count >= 1 && n <= 10 && size <= count * n
    ensures |Varint(size)| <= if count == 1 then 1 else count - 1
  {
    MulLe(n, 10, count);
    assert size <= 10 * count;
    VarintMonotone(size, 10 * count);
    TenTimes(count);
  }

  lemma {:induction false} TenTimes(count: nat)
    requires count >= 1
    ensures |Varint(10 * count)| <= if count == 1 then 1 else count - 1
  {
    if count < 13 {
    } else {
      if count <= 13 {
        assert |Varint(130)| == 2;
      } else {
        TenTimes(count - 1);
        VarintSuccessor(10 * (count - 1), 10 * count);
      }
    }
  }

  lemma {:induction false} VarintSuccessor(v: nat, w: nat)
    requires v <= w <= v + 127
    ensures |Varint(w)| <= |Varint(v)| + 1
  {
    if w < 128 {
    } else {
      if v < 128 {
        assert w / 128 == 1;
      } else if w / 128 > v / 128 {
        VarintSuccessor(v / 128, w / 128);
      }
    }
  }

  lemma {:induction false} PackedFieldBound(f: Field, d: Decl, vs: seq<Value>)
    requires Matches(f, d) && ValidField(f) && Packable(f.ltype) && f.rule.Repeated? && FieldSize(f, d).Some?
    requires vs != [] && |vs| <= f.rule.maxCount && AllValid(f.ltype, vs) && forall v :: v in vs ==> Declared(d, v)
    ensures |EncodeField(f, Rep(vs))| <= FieldSize(f, d).value
  {
    var n, t, c := ItemSize(f.ltype, d).value, |Varint(f.tag * 8)|, f.rule.maxCount;
    var size := |EncodePacked(f.ltype, vs)|;
    PackedBound(f.ltype, d, vs, n);
    MulLe(|vs|, c, n);
    PackableAtMost10(f.ltype, d);
    PrefixFits(size, c, n);
    TagLength(f.tag, WT_STRING);
    Reserved(c, n, t);
  }

  lemma {:induction false} Reserved(c: nat, n: nat, t: nat)
    requires c >= 1 && t >= 1
    ensures c * (n + t) >= c * n + t + (c - 1)
  {
    MulLe(1, t, c - 1);
    assert c * (n + t) == c * n + (c - 1) * t + t;
  }

  lemma {:induction false} ArrayBound(f: Field, d: Decl, vs: seq<Value>)
    requires Matches(f, d) && ValidField(f) && !Packable(f.ltype) && f.rule.Repeated? && FieldSize(f, d).Some?
    requires |vs| <= f.rule.maxCount && AllValid(f.ltype, vs)
    requires forall v :: v in vs ==> Declared(d, v) && ObeysValue(f.ltype, v)
    ensures |EncodeItems(f, vs)| <= FieldSize(f, d).value
    decreases f, 2
  {
    var n := ItemSize(f.ltype, d).value + |Varint(f.tag * 8)|;
    ItemsBound(f, d, vs, n);
    MulLe(|vs|, f.rule.maxCount, n);
  }

  lemma {:induction false} FieldBound(f: Field, d: Decl, s: Slot)
    requires Matches(f, d) && ValidField(f) && ValidSlot(f, s) && FieldSize(f, d).Some?
    requires DeclaredSlot(d, s) && ObeysSlot(f, s)
    ensures |EncodeField(f, s)| <= FieldSize(f, d).value
    decreases f, 3
  {
    match s
    case One(v) =>
      ItemBound(f, d, v);
      TagLength(f.tag, WireType(f.ltype));
    case Opt(o) =>
      if o.Some? {
        ItemBound(f, d, o.value);
        TagLength(f.tag, WireType(f.ltype));
      }
    case Rep(vs) =>
      if vs != [] && Packable(f.ltype) {
        PackedFieldBound(f, d, vs);
      } else if vs != [] {
        ArrayBound(f, d, vs);
      }
    case Calls(_) =>
  }

  /**
   * For every message whose size the generator can tell, and every value of it with declared enumerators and
   * lengths: the encoding is at most that long.
   */
  lemma {:induction false} MessageBound(fields: Fields, decls: seq<Decl>, m: Slots)
    requires ValidFields(fields) && AllMatch(fields, decls) && ValidSlots(fields, m)
    requires AllDeclared(decls, m) && Obeys(fields, m) && MessageSize(fields, decls).Some?
    ensures |Encode(fields, m)| <= MessageSize(fields, decls).value
    decreases fields, 4
  {
    if fields == [] {
    } else {
      FieldBound(fields[0], decls[0], m[0]);
      MessageBound(fields[1..], decls[1..], m[1..]);
    }
  }

  /** Without odd sizes, the bound holds of everything that a struct with declared enumerators can hold. */
  lemma {:induction false} EvenMessageBound(fields: Fields, decls: seq<Decl>, m: Slots)
    requires ValidFields(fields) && AllMatch(fields, decls) && ValidSlots(fields, m)
    requires AllDeclared(decls, m) && Even(fields) && MessageSize(fields, decls).Some?
    ensures |Encode(fields, m)| <= MessageSize(fields, decls).value
  {
    EvenObeys(fields, m);
    MessageBound(fields, decls, m);
  }

  /** A buffer of the generated size is always large enough. */
  method EncodeSized(fields: Fields, decls: seq<Decl>, m: Slots, buf: array<byte>) returns (ok: bool, written: nat)
    requires ValidFields(fields) && AllMatch(fields, decls) && ValidSlots(fields, m) && AllDeclared(decls, m)
    requires Even(fields) || Obeys(fields, m)
    requires MessageSize(fields, decls).Some? && MessageSize(fields, decls).value <= buf.Length < TWO32
    modifies buf
    ensures ok && written == |Encode(fields, m)| <= MessageSize(fields, decls).value
    ensures buf[..written] == Encode(fields, m)
  {
    if Even(fields) {
      EvenObeys(fields, m);
    }
    MessageBound(fields, decls, m);
    Encoder.ValidIsHeld(fields, m);
    ok, written := Encoder.EncodeToBuffer(fields, m, buf);
  }

  // Bytes fields of odd size

  /** The space for a bytes field is enough exactly for byte strings of the declared size. */
  lemma {:induction false} BytesBoundIff(f: Field, s: seq<byte>)
    requires f.ltype.Bytes? && !f.rule.Repeated? && ValidField(f)
    ensures FieldSize(f, Plain).Some?
    ensures |EncodeItem(f, BytesV(s))| <= FieldSize(f, Plain).value <==> |s| <= f.ltype.maxSize
  {
    var n := f.ltype.maxSize;
    Pow128Small();
    Pow128Words();
    VarintSize(n, 3);
    VarintSize(f.tag * 8, 5);
    TagLength(f.tag, WT_STRING);
    if |s| <= n {
      DelimitedBound(s, n);
    } else {
      VarintMonotone(n, |s|);
    }
  }

  /** A message of one bytes field of odd size, filled up to its padding, decodes and exceeds the reserved space. */
  lemma {:induction false} OddSizeExceeded(f: Field, s: seq<byte>)
    requires f.ltype.Bytes? && f.rule.Singular? && ValidField(f)
    requires f.ltype.maxSize % 2 == 1 && |s| == f.ltype.maxSize + 1
    ensures Decode([f], EncodeItem(f, BytesV(s))) == Some([One(BytesV(s))]) && !Obeys([f], [One(BytesV(s))])
    ensures AllMatch([f], [Plain]) && MessageSize([f], [Plain]).Some?
    ensures MessageSize([f], [Plain]).value < |EncodeItem(f, BytesV(s))| == |Encode([f], [One(BytesV(s))])|
  {
    var fields, m := [f], [One(BytesV(s))];
    BytesBoundIff(f, s);
    assert fields[1..] == [] && m[1..] == [] && [Plain][1..] == [];
    assert !ObeysSlot(fields[0], m[0]);
    assert Encode(fields, m) == EncodeItem(f, BytesV(s)) + Encode(fields[1..], m[1..]);
    assert EncodeItem(f, BytesV(s)) + [] == EncodeItem(f, BytesV(s));
    Pow128Small();
    Pow128Words();
    VarintSize(|s|, 3);
    VarintSize(f.tag * 8 + WT_STRING, 5);
    MessageRoundTrip(fields, m);
  }

  /** With a declared size of five, six bytes are accepted, and take eight bytes where seven are reserved. */
  lemma {:induction false} OddExample(f: Field, bs: seq<byte>)
    requires f == Field(1, Singular, Bytes(5)) && bs == [0x0A, 6, 1, 2, 3, 4, 5, 6]
    ensures Decode([f], bs) == Some([One(BytesV(bs[2..]))]) && FieldSize(f, Plain) == Some(7)
  {
    var s := bs[2..];
    assert Varint(10) == [0x0A] && Varint(6) == [6] && Varint(5) == [5] && Varint(8) == [8];
    assert EncodeItem(f, BytesV(s)) == [0x0A] + ([6] + s) == bs;
    OddSizeExceeded(f, s);
  }

  // The computed sizes are attained

  lemma {:induction false} LongVarint(w: nat, n: nat)
    requires n >= 1 && Pow(128, n - 1) <= w < Pow(128, n)
    ensures |Varint(w)| == n
  {
    VarintSize(w, n);
    if n > 1 {
      VarintSize(w, n - 1);
    } else {
      VarintIsVarint(w);
    }
  }

  lemma {:induction false} Pow128Nine()
    ensures Pow(128, 9) == TWO63 && Pow(128, 4) == 0x1000_0000 && Pow(128, 0) == 1
  {
    assert Pow(128, 4) == 0x1000_0000;
    PowAdd(128, 4, 5);
    Pow128Words();
  }

  /** The largest word of each size takes the whole space of its column. */
  lemma {:induction false} IntegerAttained(size: nat)
    requires IntSize(size)
    ensures |Varint(Range(size) - 1)| == IntegerSize(size)
  {
    Pow128Small();
    Pow128Words();
    Pow128Nine();
    LongVarint(Range(size) - 1, IntegerSize(size));
  }

  /** A declared enumerator takes exactly the space that was computed for it. */
  lemma {:induction false} EnumExact(l: LType, i: int)
    requires (l.Int? || l.UInt?) && ValidLType(l) && ValidValue(l, IntV(i))
    ensures VarintMax(i) == Some(|Varint(Word(l, i))|)
  {
    Pow128Words();
    Pow128Nine();
    if i < 0 {
      LongVarint(i + TWO64, 10);
      LongVarint(TWO64 - i, 10);
    } else {
      VarintAtMost10(i);
    }
  }

  lemma {:induction false} EnumAttained(l: LType, values: seq<int>) returns (i: int)
    requires (l.Int? || l.UInt?) && ValidLType(l) && values != [] && forall x :: x in values ==> ValidValue(l, IntV(x))
    ensures i in values && EnumSize(values) == Some(|Varint(Word(l, i))|)
  {
    EnumExact(l, values[0]);
    i := values[0];
    if |values| == 1 {
      assert values[1..] == [];
    } else {
      var j := EnumAttained(l, values[1..]);
      if |Varint(Word(l, i))| < |Varint(Word(l, j))| {
        i := j;
      }
    }
  }

  /** The space for a scalar, or an enumeration whose values fit its type, is what some value of it takes. */
  lemma {:induction false} ScalarAttained(l: LType, d: Decl) returns (v: Value)
    requires Packable(l) && ValidLType(l) && !d.Sub?
    requires d.Enum? ==>
               (l.Int? || l.UInt?) && d.values != [] && forall x :: x in d.values ==> ValidValue(l, IntV(x))
    ensures ValidValue(l, v) && Declared(d, v) && ItemSize(l, d) == Some(|EncodeValue(l, v)|)
  {
    if d.Enum? {
      var i := EnumAttained(l, d.values);
      v := IntV(i);
    } else {
      match l
      case Bool => v := IntV(1);
      case Int(_) =>
        v := IntV(-1);
        Pow128Words();
        Pow128Nine();
        LongVarint(TWO64 - 1, 10);
      case UInt(size) =>
        v := IntV(Range(size) - 1);
        IntegerAttained(size);
      case SInt(size) =>
        v := IntV(-(Range(size) / 2));
        IntegerAttained(size);
      case _ => v := IntV(0);
    }
  }

  /** So is that for fixed-length bytes and for bytes; a string of full length may leave one byte of its length. */
  lemma {:induction false} ByteStringAttained(l: LType, s: seq<byte>)
    requires ValidLType(l)
    ensures l.FixedBytes? && |s| == l.length ==> ItemSize(l, Plain) == Some(|Delimited(s)|)
    ensures l.Bytes? && |s| == l.maxSize ==> ItemSize(l, Plain) == Some(|Delimited(s)|)
    ensures l.String? && |s| == l.bufsize - 1 ==>
              ItemSize(l, Plain) == Some(|Delimited(s)| + |Varint(l.bufsize)| - |Varint(l.bufsize - 1)|)
  {
    if l.FixedBytes? || l.Bytes? || l.String? {
      var n := if l.FixedBytes? then l.length else if l.Bytes? then l.maxSize else l.bufsize;
      Pow128Small();
      VarintSize(n, 3);
      if n > 0 {
        VarintMonotone(n - 1, n);
      }
    }
  }

  lemma {:induction false} TagSize(f: Field)
    requires ValidField(f)
    ensures VarintMax(f.tag * 8) == Some(|Tag(f.tag, WireType(f.ltype))|) == Some(|Tag(f.tag, WT_STRING)|)
  {
    TagLength(f.tag, WireType(f.ltype));
    TagLength(f.tag, WT_STRING);
    Pow128Words();
    VarintSize(f.tag * 8, 5);
  }

  lemma {:induction false} PackedAttained(f: Field, d: Decl, v: Value)
    requires ValidField(f) && Matches(f, d) && ItemSize(f.ltype, d) == Some(|EncodeValue(f.ltype, v)|)
    requires f.rule == Repeated(1) && Packable(f.ltype)
    ensures FieldSize(f, d) == Some(|EncodeField(f, Rep([v]))|)
  {
    TagSize(f);
    PackableAtMost10(f.ltype, d);
    assert [v][1..] == [] && EncodePacked(f.ltype, [v]) == EncodeValue(f.ltype, v) + [];
  }

  lemma {:induction false} ArrayAttained(f: Field, d: Decl, v: Value)
    requires ValidField(f) && Matches(f, d) && ItemSize(f.ltype, d) == Some(|EncodeValue(f.ltype, v)|)
    requires f.rule.Repeated? && f.rule.maxCount > 1
    ensures FieldSize(f, d) == Some(|EncodeItems(f, seq(f.rule.maxCount, _ => v))|)
  {
    TagSize(f);
    SameItems(f, v, f.rule.maxCount);
  }

  /** A field that holds one item needs its tag beside, and an array as many of both, or its length if it is packed. */
  lemma {:induction false} FieldAttained(f: Field, d: Decl, v: Value)
    requires ValidField(f) && Matches(f, d) && ItemSize(f.ltype, d) == Some(|EncodeValue(f.ltype, v)|)
    ensures !f.rule.Repeated? ==> FieldSize(f, d) == Some(|EncodeItem(f, v)|)
    ensures f.rule == Repeated(1) && Packable(f.ltype) ==> FieldSize(f, d) == Some(|EncodeField(f, Rep([v]))|)
    ensures f.rule.Repeated? && f.rule.maxCount > 1 ==>
              FieldSize(f, d) == Some(|EncodeItems(f, seq(f.rule.maxCount, _ => v))|)
  {
    if !f.rule.Repeated? {
      TagSize(f);
    } else if f.rule.maxCount > 1 {
      ArrayAttained(f, d, v);
    } else if f.rule == Repeated(1) && Packable(f.ltype) {
      PackedAttained(f, d, v);
    }
  }

  lemma {:induction false} SameItems(f: Field, v: Value, n: nat)
    ensures |EncodeItems(f, seq(n, _ => v))| == n * |EncodeItem(f, v)|
  {
    if n == 0 {
    } else {
      assert seq(n, _ => v)[1..] == seq(n - 1, _ => v);
      SameItems(f, v, n - 1);
      OneMore(n - 1, |EncodeItem(f, v)|);
    }
  }

  /** Every field takes all of its space. */
  predicate AllAttained(fields: Fields, decls: seq<Decl>, m: Slots)
    requires AllMatch(fields, decls) && |fields| == |m|
  {
    fields == [] ||
    (FieldSize(fields[0], decls[0]) == Some(|EncodeField(fields[0], m[0])|) &&
     AllAttained(fields[1..], decls[1..], m[1..]))
  }

  /** Then the message does, and as a submessage it takes its length beside. */
  lemma {:induction false} MessageAttained(fields: Fields, decls: seq<Decl>, m: Slots)
    requires AllMatch(fields, decls) && |fields| == |m| && AllAttained(fields, decls, m)
    ensures MessageSize(fields, decls) == Some(|Encode(fields, m)|)
  {
    if fields == [] {
    } else {
      MessageAttained(fields[1..], decls[1..], m[1..]);
    }
  }

  lemma {:induction false} SubmessageAttained(fields: Fields, decls: seq<Decl>, m: Slots)
    requires AllMatch(fields, decls) && |fields| == |m| && MessageSize(fields, decls) == Some(|Encode(fields, m)|)
    requires |Encode(fields, m)| < TWO32
    ensures ItemSize(Message(fields), Sub(decls)) == Some(|EncodeValue(Message(fields), MsgV(m))|)
  {
    VarintAtMost10(|Encode(fields, m)|);
  }
}
