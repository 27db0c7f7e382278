/**
 Descriptors, message values, and the encoder and decoder of statically allocated messages as functions.
 A descriptor is the list of `pb_field_t` entries; a message is the list of the storage of its fields.
 */
module PbModel {
  import opened Prelude
  import opened PbWire

  /** The scalar type of a field. `dataSize` is the storage of one item in bytes. */
  datatype LType =
    | LVarint(dataSize: nat)
    | LUvarint(dataSize: nat)
    | LSvarint(dataSize: nat)
    | LFixed32
    | LFixed64
    | LBytes(dataSize: nat)
    | LString(dataSize: nat)
    | LSubmessage(fields: seq<Field>)
    | LFixedBytes(dataSize: nat)

  /** The repetition rule. `Singular` is the proto3 optional field, which has no has-flag. */
  datatype HType = Required | Optional | Singular | Repeated(arraySize: nat) | Oneof(union: nat)

  datatype Field = Field(tag: nat, ltype: LType, htype: HType, init: Option<Val>)

  /** The contents of one item: an integer, a byte string, or a nested message. */
  datatype Val = VInt(i: int) | VBytes(b: seq<u8>) | VMsg(slots: seq<Slot>)

  /** The storage of one field. The members of one oneof share a union, so at most one is `One(Some(_))`. */
  datatype Slot =
    | Req(v: Val)
    | Opt(has: bool, v: Val)
    | Sing(v: Val)
    | Rep(items: seq<Val>)
    | One(active: Option<Val>)

  const WT_VARINT := 0
  const WT_64BIT := 1
  const WT_STRING := 2
  const WT_32BIT := 5

  /** `PB_SIZE_MAX` and the offset of the data in a bytes array, for 32-bit `pb_size_t`. */
  const PB_SIZE_MAX := 0xFFFF_FFFF
  const BYTES_OFFSET := 4
  const PB_MAX_REQUIRED_FIELDS := 64

  predicate Packable(l: LType) {
    l.LVarint? || l.LUvarint? || l.LSvarint? || l.LFixed32? || l.LFixed64?
  }

  function WireType(l: LType): (wt: nat)
    ensures wt < 8
  {
    match l
    case LVarint(_) | LUvarint(_) | LSvarint(_) => WT_VARINT
    case LFixed32 => WT_32BIT
    case LFixed64 => WT_64BIT
    case LBytes(_) | LString(_) | LSubmessage(_) | LFixedBytes(_) => WT_STRING
  }

  predicate ValidIntSize(n: nat) {
    n == 1 || n == 2 || n == 4 || n == 8
  }

  // ---------------------------------------------------------------- encoding

  function EncTag(tag: nat, wt: nat): (b: seq<u8>)
    ensures |b| > 0
  {
    EncVarint(tag * 8 + wt)
  }

  function EncString(b: seq<u8>): seq<u8> {
    EncVarint(|b|) + b
  }

  lemma StringLonger(b: seq<u8>)
    ensures |b| < |EncString(b)|
  {
  }

  /** The C string in a character array: up to the first NUL, or the whole array. */
  function CString(b: seq<u8>, max: nat): (r: seq<u8>)
    ensures r <= b && |r| <= max
    ensures 0 !in r
    ensures |r| < max && |r| < |b| ==> b[|r|] == 0
  {
    if max == 0 || b == [] || b[0] == 0 then [] else [b[0]] + CString(b[1..], max - 1)
  }

  function EncScalar(l: LType, v: Val): Option<seq<u8>>
    requires Packable(l)
  {
    if !v.VInt? then None
    else match l
      case LVarint(n) => if ValidIntSize(n) then Some(EncVarint(ToWord64(v.i))) else None
      case LUvarint(n) => if ValidIntSize(n) then Some(EncVarint(ToWord64(v.i))) else None
      case LSvarint(n) => if ValidIntSize(n) then Some(EncVarint(ZigZag(v.i))) else None
      case LFixed32 => Some(EncFixed(v.i % TWO32, 4))
      case LFixed64 => Some(EncFixed(v.i % TWO64, 8))
  }

  /** One item without its tag. */
  function EncValue(l: LType, v: Val): Option<seq<u8>>
    decreases l, 0
  {
    if Packable(l) then EncScalar(l, v)
    else match (l, v)
      case (LBytes(n), VBytes(b)) => if |b| + BYTES_OFFSET > n then None else Some(EncString(b))
      case (LString(n), VBytes(b)) => Some(EncString(CString(b, n)))
      case (LFixedBytes(n), VBytes(b)) => if |b| == n then Some(EncString(b)) else None
      case (LSubmessage(fs), VMsg(slots)) =>
        if |fs| != |slots| then None
        else (match EncFrom(fs, slots, 0)
              case None => None
              case Some(b) => Some(EncString(b)))
      case _ => None
  }

  /** The items of a packed array, one after the other. */
  function EncPacked(l: LType, items: seq<Val>): Option<seq<u8>>
    requires Packable(l)
    decreases |items|
  {
    if items == [] then Some([])
    else match (EncScalar(l, items[0]), EncPacked(l, items[1..]))
      case (Some(b), Some(rest)) => Some(b + rest)
      case _ => None
  }

  /** A single item after its tag. */
  function EncTagged(f: Field, v: Val): Option<seq<u8>>
    decreases f, 0
  {
    match EncValue(f.ltype, v)
    case None => None
    case Some(b) => Some(EncTag(f.tag, WireType(f.ltype)) + b)
  }

  function EncItems(f: Field, items: seq<Val>): Option<seq<u8>>
    decreases f, 1, |items|
  {
    if items == [] then Some([])
    else match (EncTagged(f, items[0]), EncItems(f, items[1..]))
      case (Some(b), Some(rest)) => Some(b + rest)
      case _ => None
  }

  function EncField(f: Field, s: Slot): Option<seq<u8>>
    decreases f, 2
  {
    match (f.htype, s)
    case (Required, Req(v)) => EncTagged(f, v)
    case (Optional, Opt(has, v)) => if has then EncTagged(f, v) else Some([])
    case (Singular, Sing(v)) => if IsDefaultValue(f.ltype, v) then Some([]) else EncTagged(f, v)
    case (Repeated(n), Rep(items)) =>
      if items == [] then Some([])
      else if |items| > n then None
      else if Packable(f.ltype) then
        (match EncPacked(f.ltype, items)
         case None => None
         case Some(b) => Some(EncTag(f.tag, WT_STRING) + EncString(b)))
      else EncItems(f, items)
    case (Oneof(_), One(Some(v))) => EncTagged(f, v)
    case (Oneof(_), One(None)) => Some([])
    case _ => None
  }

  /** Fields `i` and later, in descriptor order. */
  function EncFrom(fs: seq<Field>, slots: seq<Slot>, i: nat): Option<seq<u8>>
    requires |fs| == |slots| && i <= |fs|
    decreases fs, |fs| - i
  {
    if i == |fs| then Some([])
    else match (EncField(fs[i], slots[i]), EncFrom(fs, slots, i + 1))
      case (Some(b), Some(rest)) => Some(b + rest)
      case _ => None
  }

  function Encode(fs: seq<Field>, slots: seq<Slot>): Option<seq<u8>>
    requires |fs| == |slots|
  {
    EncFrom(fs, slots, 0)
  }

  /** The proto3 test for a value that need not be sent. */
  predicate IsDefaultValue(l: LType, v: Val)
    decreases l, 0
  {
    match (l, v)
    case (LBytes(_), VBytes(b)) => b == []
    case (LString(n), VBytes(b)) => n == 0 || b == [] || b[0] == 0
    case (LFixedBytes(n), _) => n == 0
    case (LSubmessage(fs), VMsg(slots)) => |fs| == |slots| && IsDefaultFrom(fs, slots, 0)
    case (_, VInt(i)) => i == 0
    case _ => false
  }

  predicate IsDefaultSlot(f: Field, s: Slot)
    decreases f, 1
  {
    match (f.htype, s)
    case (Repeated(_), Rep(items)) => items == []
    case (Oneof(_), One(active)) => active.None?
    case (Optional, Opt(has, _)) => !has
    case (Singular, Sing(v)) => IsDefaultValue(f.ltype, v)
    case _ => false
  }

  predicate IsDefaultFrom(fs: seq<Field>, slots: seq<Slot>, i: nat)
    requires |fs| == |slots| && i <= |fs|
    decreases fs, |fs| - i
  {
    i == |fs| || (IsDefaultSlot(fs[i], slots[i]) && IsDefaultFrom(fs, slots, i + 1))
  }

  // ---------------------------------------------------------------- defaults

  function Zeros(n: nat): (b: seq<u8>)
    ensures |b| == n
  {
    seq(n, i => 0)
  }

  function InitValue(f: Field): Val
    decreases f, 0
  {
    match f.ltype
    case LSubmessage(sub) => VMsg(DefaultFrom(sub, 0))
    case LFixedBytes(n) => if f.init.Some? then f.init.value else VBytes(Zeros(n))
    case LBytes(_) | LString(_) => if f.init.Some? then f.init.value else VBytes([])
    case _ => if f.init.Some? then f.init.value else VInt(0)
  }

  function DefaultSlot(f: Field): Slot
    decreases f, 1
  {
    match f.htype
    case Required => Req(InitValue(f))
    case Optional => Opt(false, InitValue(f))
    case Singular => Sing(InitValue(f))
    case Repeated(_) => Rep([])
    case Oneof(_) => One(None)
  }

  function DefaultFrom(fs: seq<Field>, i: nat): (slots: seq<Slot>)
    requires i <= |fs|
    ensures |slots| == |fs| - i
    ensures forall j :: 0 <= j < |slots| ==> slots[j] == DefaultSlot(fs[i + j])
    decreases fs, |fs| - i
  {
    if i == |fs| then [] else [DefaultSlot(fs[i])] + DefaultFrom(fs, i + 1)
  }

  function Defaults(fs: seq<Field>): (slots: seq<Slot>)
    ensures |slots| == |fs|
    ensures forall j :: 0 <= j < |fs| ==> slots[j] == DefaultSlot(fs[j])
  {
    DefaultFrom(fs, 0)
  }

  // ---------------------------------------------------------------- decoding

  /** A tag is read as a 32-bit varint; the value zero ends the message. */
  datatype Tag = Tag(tag: nat, wt: nat) | EndTag

  function DecTag(s: seq<u8>): (r: Read<Tag>)
    ensures r.Got? ==> |r.rest| < |s|
  {
    match Varint32(s)
    case Fail => Fail
    case Got(v, rest) => if v == 0 then Got(EndTag, rest) else Got(Tag(v / 8, v % 8), rest)
  }

  function Skip(s: seq<u8>, n: nat): (r: Read<()>)
    ensures r.Got? ==> |r.rest| <= |s|
  {
    if |s| < n then Fail else Got((), s[n..])
  }

  function SkipField(wt: nat, s: seq<u8>): (r: Read<()>)
    ensures r.Got? ==> |r.rest| <= |s|
  {
    if wt == WT_VARINT then
      if VarintLen(s) == 0 then Fail else Got((), s[VarintLen(s)..])
    else if wt == WT_64BIT then Skip(s, 8)
    else if wt == WT_STRING then
      match Varint32(s)
      case Fail => Fail
      case Got(n, rest) => Skip(rest, n)
    else if wt == WT_32BIT then Skip(s, 4)
    else Fail
  }

  /** A length prefix and that many bytes: the contents of a substream. */
  function Substream(s: seq<u8>): (r: Read<seq<u8>>)
    ensures r.Got? ==> |r.value| + |r.rest| < |s|
  {
    match Varint32(s)
    case Fail => Fail
    case Got(n, rest) => if |rest| < n then Fail else Got(rest[..n], rest[n..])
  }

  predicate FitsSigned(i: int, n: nat) {
    if n == 8 then -TWO63 <= i < TWO63
    else if n == 4 then -TWO31 <= i < TWO31
    else if n == 2 then -0x8000 <= i < 0x8000
    else n == 1 && -0x80 <= i < 0x80
  }

  predicate FitsUnsigned(i: int, n: nat) {
    if n == 8 then 0 <= i < TWO64
    else if n == 4 then 0 <= i < TWO32
    else if n == 2 then 0 <= i < 0x1_0000
    else n == 1 && 0 <= i < 0x100
  }

  function DecScalar(l: LType, s: seq<u8>): (r: Read<Val>)
    requires Packable(l)
    ensures r.Got? ==> |r.rest| < |s|
  {
    match l
    case LVarint(n) =>
      (match Varint64(s)
       case Fail => Fail
       case Got(w, rest) =>
         var i := if n == 8 then ToSigned64(w) else ToSigned32(w);
         if FitsSigned(i, n) then Got(VInt(i), rest) else Fail)
    case LUvarint(n) =>
      (match Varint64(s)
       case Fail => Fail
       case Got(w, rest) => if FitsUnsigned(w, n) then Got(VInt(w), rest) else Fail)
    case LSvarint(n) =>
      (match Varint64(s)
       case Fail => Fail
       case Got(w, rest) => if FitsSigned(UnZigZag(w), n) then Got(VInt(UnZigZag(w)), rest) else Fail)
    case LFixed32 => (match Fixed(s, 4) case Fail => Fail case Got(v, rest) => Got(VInt(v), rest))
    case LFixed64 => (match Fixed(s, 8) case Fail => Fail case Got(v, rest) => Got(VInt(v), rest))
  }

  /** One item. A nested message is decoded over `base`, the present contents of its storage. */
  function DecValue(l: LType, s: seq<u8>, base: Val): (r: Read<Val>)
    ensures r.Got? ==> |r.rest| < |s|
    decreases |s|, 0
  {
    if Packable(l) then DecScalar(l, s)
    else match l
      case LBytes(n) =>
        (match Varint32(s)
         case Fail => Fail
         case Got(size, rest) =>
           if size > PB_SIZE_MAX || size + BYTES_OFFSET > n || |rest| < size then Fail
           else Got(VBytes(rest[..size]), rest[size..]))
      case LString(n) =>
        (match Varint32(s)
         case Fail => Fail
         case Got(size, rest) =>
           if size + 1 > n || |rest| < size then Fail
           else Got(VBytes(rest[..size]), rest[size..]))
      case LFixedBytes(n) =>
        (match Varint32(s)
         case Fail => Fail
         case Got(size, rest) =>
           if size > PB_SIZE_MAX then Fail
           else if size == 0 then Got(VBytes(Zeros(n)), rest)
           else if size != n || |rest| < size then Fail
           else Got(VBytes(rest[..size]), rest[size..]))
      case LSubmessage(fs) =>
        (match Substream(s)
         case Fail => Fail
         case Got(sub, rest) =>
           if !base.VMsg? || |base.slots| != |fs| then Fail
           else match DecodeNoinit(fs, sub, base.slots)
             case Fail => Fail
             case Got(d, _) => Got(VMsg(d.slots), rest))
  }

  /** A packed array: items until the substream is empty, at most `max` of them in all. */
  function DecPacked(l: LType, sub: seq<u8>, items: seq<Val>, max: nat): Option<seq<Val>>
    requires Packable(l)
    decreases |sub|
  {
    if sub == [] then Some(items)
    else if |items| >= max then None
    else match DecScalar(l, sub)
      case Fail => None
      case Got(v, rest) => DecPacked(l, rest, items + [v], max)
  }

  /** The storage that a nested message is decoded over, given the present slot. */
  function Base(f: Field, s: Slot): Val {
    match (f.htype, s)
    case (Required, Req(v)) => v
    case (Optional, Opt(_, v)) => v
    case (Singular, Sing(v)) => v
    case _ => InitValue(f)
  }

  /** Storing a decoded item: a oneof member takes the union from the other members. */
  function Store(fs: seq<Field>, slots: seq<Slot>, i: nat, v: Val): (r: seq<Slot>)
    requires |fs| == |slots| && i < |fs|
    ensures |r| == |slots|
  {
    match fs[i].htype
    case Required => slots[i := Req(v)]
    case Optional => slots[i := Opt(true, v)]
    case Singular => slots[i := Sing(v)]
    case Repeated(_) => slots[i := Rep(Items(slots[i]) + [v])]
    case Oneof(_) =>
      (seq(|slots|, j requires 0 <= j < |slots| =>
         if j == i then One(Some(v)) else if fs[j].htype == fs[i].htype then One(None) else slots[j]))
  }

  function Items(s: Slot): seq<Val> {
    match s case Rep(items) => items case _ => []
  }

  /** Field `i`, whose tag came with wire type `wt`. Only a repeated field looks at the wire type. */
  function DecField(fs: seq<Field>, i: nat, wt: nat, s: seq<u8>, slots: seq<Slot>): (r: Read<seq<Slot>>)
    requires |fs| == |slots| && i < |fs|
    ensures r.Got? ==> |r.rest| < |s| && |r.value| == |slots|
    decreases |s|, 1
  {
    var f := fs[i];
    if f.htype.Repeated? && wt == WT_STRING && Packable(f.ltype) then
      match Substream(s)
      case Fail => Fail
      case Got(sub, rest) =>
        (match DecPacked(f.ltype, sub, Items(slots[i]), f.htype.arraySize)
         case None => Fail
         case Some(items) => Got(slots[i := Rep(items)], rest))
    else if f.htype.Repeated? && |Items(slots[i])| >= f.htype.arraySize then Fail
    else match DecValue(f.ltype, s, Base(f, slots[i]))
      case Fail => Fail
      case Got(v, rest) => Got(Store(fs, slots, i, v), rest)
  }

  /** The first descriptor entry with the tag. */
  function Find(fs: seq<Field>, tag: nat): (r: Option<nat>)
    ensures r.Some? ==> r.value < |fs| && fs[r.value].tag == tag
    ensures r.None? <==> forall j :: 0 <= j < |fs| ==> fs[j].tag != tag
  {
    FindFrom(fs, tag, 0)
  }

  function FindFrom(fs: seq<Field>, tag: nat, i: nat): (r: Option<nat>)
    requires i <= |fs|
    ensures r.Some? ==> i <= r.value < |fs| && fs[r.value].tag == tag
    ensures r.Some? ==> forall j :: i <= j < r.value ==> fs[j].tag != tag
    ensures r.None? ==> forall j :: i <= j < |fs| ==> fs[j].tag != tag
    decreases |fs| - i
  {
    if i == |fs| then None else if fs[i].tag == tag then Some(i) else FindFrom(fs, tag, i + 1)
  }

  /** The state of the decoding loop: the message, and the indices of the fields met so far. */
  datatype Dec = Dec(slots: seq<Slot>, seen: set<nat>)

  /** What the loop leaves: its state, whether a zero tag ended it, and the unread input. */
  datatype Loop = Stop(d: Dec, zeroTag: bool, rest: seq<u8>) | Error

  function DecLoop(fs: seq<Field>, s: seq<u8>, d: Dec): (r: Loop)
    requires |d.slots| == |fs|
    ensures r.Stop? ==> |r.d.slots| == |fs| && |r.rest| <= |s|
    ensures r.Stop? && !r.zeroTag ==> r.rest == []
    decreases |s|, 2
  {
    if s == [] then Stop(d, false, s)
    else match DecTag(s)
      case Fail => Error
      case Got(EndTag, rest) => Stop(d, true, rest)
      case Got(Tag(tag, wt), rest) =>
        if fs == [] && tag == 0 then Error  // the terminator entry matches, and has no valid data size
        else (match Find(fs, tag)
         case None =>
           (match SkipField(wt, rest)
            case Fail => Error
            case Got(_, rest') => DecLoop(fs, rest', d))
         case Some(i) =>
           (match DecField(fs, i, wt, rest, d.slots)
            case Fail => Error
            case Got(slots, rest') => DecLoop(fs, rest', Dec(slots, d.seen + {i}))))
  }

  /** The number of required fields before entry `i`. */
  function RequiredBefore(fs: seq<Field>, i: nat): nat
    requires i <= |fs|
  {
    if i == 0 then 0 else RequiredBefore(fs, i - 1) + (if fs[i - 1].htype.Required? then 1 else 0)
  }

  /** Every one of the first 64 required fields has been met. */
  predicate RequiredMet(fs: seq<Field>, seen: set<nat>) {
    forall i :: 0 <= i < |fs| && fs[i].htype.Required? && RequiredBefore(fs, i) < PB_MAX_REQUIRED_FIELDS ==> i in seen
  }

  /** Decoding over the present contents `slots`: the caller's merge operation. */
  function DecodeNoinit(fs: seq<Field>, s: seq<u8>, slots: seq<Slot>): (r: Read<Dec>)
    requires |slots| == |fs|
    ensures r.Got? ==> |r.value.slots| == |fs|
    decreases |s|, 3
  {
    match DecLoop(fs, s, Dec(slots, {}))
    case Error => Fail
    case Stop(d, _, rest) => if RequiredMet(fs, d.seen) then Got(d, rest) else Fail
  }

  function Decode(fs: seq<Field>, s: seq<u8>): Read<Dec> {
    DecodeNoinit(fs, s, Defaults(fs))
  }
}
