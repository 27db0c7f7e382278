/**
 Decoding what was encoded. The reader's descriptor need not be the writer's: fields the reader does not
 have are skipped, and fields the writer does not have keep their defaults.
 */
module PbRoundTrip {
  import opened Prelude
  import opened PbWire
  import opened PbModel

  // ---------------------------------------------------------------- well-formed descriptors and messages

  predicate ValidType(l: LType)
    decreases l, 0
  {
    match l
    case LVarint(n) => n in {1, 2, 4, 8}
    case LUvarint(n) => n in {1, 2, 4, 8}
    case LSvarint(n) => n in {1, 2, 4, 8}
    case LFixed32 => true
    case LFixed64 => true
    case LBytes(n) => n < 0x1_0000_0000
    case LString(n) => n < 0x1_0000_0000
    case LFixedBytes(n) => n < 0x1_0000_0000
    case LSubmessage(fs) => ValidFields(fs)
  }

  predicate ValidField(f: Field)
    decreases f, 1
  {
    && 1 <= f.tag < 0x2000_0000
    && ValidType(f.ltype)
    && (f.htype.Singular? ==> f.init.None?)
  }

  predicate ValidFields(fs: seq<Field>)
    decreases fs, 2
  {
    && (forall i :: 0 <= i < |fs| ==> ValidField(fs[i]))
    && (forall i, j :: 0 <= i < j < |fs| ==> fs[i].tag != fs[j].tag)
  }

  predicate Typed(l: LType, v: Val)
    decreases l, 0
  {
    match l
    case LVarint(n) => v.VInt? && FitsSigned(v.i, n)
    case LUvarint(n) => v.VInt? && FitsUnsigned(v.i, n)
    case LSvarint(n) => v.VInt? && FitsSigned(v.i, n)
    case LFixed32 => v.VInt? && FitsUnsigned(v.i, 4)
    case LFixed64 => v.VInt? && FitsUnsigned(v.i, 8)
    case LBytes(_) => v.VBytes?
    case LString(_) => v.VBytes?
    case LFixedBytes(n) => v.VBytes? && |v.b| == n
    case LSubmessage(fs) => v.VMsg? && TypedMessage(fs, v.slots)
  }

  predicate TypedSlot(f: Field, s: Slot)
    decreases f, 1
  {
    match (f.htype, s)
    case (Required, Req(v)) => Typed(f.ltype, v)
    case (Optional, Opt(has, v)) => has ==> Typed(f.ltype, v)
    case (Singular, Sing(v)) => Typed(f.ltype, v)
    case (Repeated(_), Rep(items)) => forall k :: 0 <= k < |items| ==> Typed(f.ltype, items[k])
    case (Oneof(_), One(active)) => active.Some? ==> Typed(f.ltype, active.value)
    case _ => false
  }

  /** Every slot has its field's type, and at most one member of each union is active. */
  predicate TypedMessage(fs: seq<Field>, slots: seq<Slot>)
    decreases fs, 2
  {
    && |fs| == |slots|
    && (forall i :: 0 <= i < |fs| ==> TypedSlot(fs[i], slots[i]))
    && (forall i, j :: 0 <= i < j < |fs| && fs[i].htype.Oneof? && fs[i].htype == fs[j].htype
          ==> slots[i] == One(None) || slots[j] == One(None))
  }

  // ---------------------------------------------------------------- what decoding can restore

  /** The part of a value that is sent: a string up to its NUL, and nothing behind an unset flag. */
  function NormValue(l: LType, v: Val): Val
    decreases l, 0
  {
    match (l, v)
    case (LString(n), VBytes(b)) => VBytes(CString(b, n))
    case (LSubmessage(fs), VMsg(slots)) => if |fs| == |slots| then VMsg(NormFrom(fs, slots, 0)) else v
    case _ => v
  }

  function NormItems(l: LType, items: seq<Val>): (r: seq<Val>)
    ensures |r| == |items|
    decreases l, 1, |items|
  {
    if items == [] then [] else [NormValue(l, items[0])] + NormItems(l, items[1..])
  }

  function NormSlot(f: Field, s: Slot): Slot
    decreases f, 2
  {
    match s
    case Req(v) => Req(NormValue(f.ltype, v))
    case Opt(has, v) => if has then Opt(true, NormValue(f.ltype, v)) else Opt(false, InitValue(f))
    case Sing(v) => Sing(NormValue(f.ltype, v))
    case Rep(items) => Rep(NormItems(f.ltype, items))
    case One(Some(v)) => One(Some(NormValue(f.ltype, v)))
    case One(None) => One(None)
  }

  function NormFrom(fs: seq<Field>, slots: seq<Slot>, i: nat): (r: seq<Slot>)
    requires |fs| == |slots| && i <= |fs|
    ensures |r| == |fs| - i
    ensures forall j :: 0 <= j < |r| ==> r[j] == NormSlot(fs[i + j], slots[i + j])
    decreases fs, |fs| - i
  {
    if i == |fs| then [] else [NormSlot(fs[i], slots[i])] + NormFrom(fs, slots, i + 1)
  }

  /** No string fills its array, and every length prefix fits 32 bits. */
  predicate Decodable(l: LType, v: Val)
    decreases l, 0
  {
    match (l, v)
    case (LString(n), VBytes(b)) => |CString(b, n)| < n
    case (LSubmessage(fs), VMsg(slots)) => DecodableMessage(fs, slots) && PrefixFits(l, v)
    case _ => true
  }

  predicate DecodableItems(l: LType, items: seq<Val>)
    decreases l, 1, |items|
  {
    items == [] || (Decodable(l, items[0]) && DecodableItems(l, items[1..]))
  }

  predicate DecodableSlot(f: Field, s: Slot)
    decreases f, 2
  {
    match s
    case Req(v) => Decodable(f.ltype, v)
    case Opt(has, v) => has ==> Decodable(f.ltype, v)
    case Sing(v) => IsDefaultValue(f.ltype, v) || Decodable(f.ltype, v)
    case Rep(items) => if Packable(f.ltype) then PackedFits(f.ltype, items) else DecodableItems(f.ltype, items)
    case One(Some(v)) => Decodable(f.ltype, v)
    case One(None) => true
  }

  predicate DecodableMessage(fs: seq<Field>, slots: seq<Slot>)
    decreases fs, 3
  {
    |fs| == |slots| && forall i :: 0 <= i < |fs| ==> DecodableSlot(fs[i], slots[i])
  }

  predicate PrefixFits(l: LType, v: Val) {
    match (l, v)
    case (LSubmessage(fs), VMsg(slots)) =>
      |fs| == |slots| && EncFrom(fs, slots, 0).Some? && |EncFrom(fs, slots, 0).value| < TWO32
    case _ => true
  }

  predicate PackedFits(l: LType, items: seq<Val>)
    requires Packable(l)
  {
    EncPacked(l, items).Some? && |EncPacked(l, items).value| < TWO32
  }

  /** What a reader without the field needs in order to step over it. */
  predicate SkippableSlot(f: Field, s: Slot) {
    match s
    case Req(v) => PrefixFits(f.ltype, v)
    case Opt(has, v) => has ==> PrefixFits(f.ltype, v)
    case Sing(v) => IsDefaultValue(f.ltype, v) || PrefixFits(f.ltype, v)
    case Rep(items) =>
      if Packable(f.ltype) then PackedFits(f.ltype, items)
      else forall k :: 0 <= k < |items| ==> PrefixFits(f.ltype, items[k])
    case One(Some(v)) => PrefixFits(f.ltype, v)
    case One(None) => true
  }

  // ---------------------------------------------------------------- what a reader with another descriptor sees

  /** Reader and writer describe a value in the same way; of nested messages either may have fields that the other has not. */
  predicate AgreeType(rl: LType, wl: LType)
    decreases wl, 0
  {
    match (rl, wl)
    case (LSubmessage(rs), LSubmessage(ws)) => Agree(rs, ws)
    case _ => rl == wl
  }

  /** The same tag, repetition rule and type. The defaults may differ. */
  predicate AgreeField(rf: Field, wf: Field)
    decreases wf, 1
  {
    rf.tag == wf.tag && rf.htype == wf.htype && AgreeType(rf.ltype, wf.ltype)
  }

  /** Reader and writer describe the tags they share in the same way. */
  predicate Agree(rs: seq<Field>, ws: seq<Field>)
    decreases ws, 2
  {
    forall k :: 0 <= k < |ws| && Find(rs, ws[k].tag).Some? ==> AgreeField(rs[Find(rs, ws[k].tag).value], ws[k])
  }

  /** What the reader gets of a value. */
  function ViewValue(rl: LType, wl: LType, v: Val): Val
    decreases wl, 0
  {
    match (rl, wl, v)
    case (LSubmessage(rs), LSubmessage(ws), VMsg(slots)) => if |ws| == |slots| then VMsg(Project(rs, ws, slots)) else v
    case _ => NormValue(wl, v)
  }

  function ViewItems(rl: LType, wl: LType, items: seq<Val>): (r: seq<Val>)
    ensures |r| == |items|
    decreases wl, 1, |items|
  {
    if items == [] then [] else [ViewValue(rl, wl, items[0])] + ViewItems(rl, wl, items[1..])
  }

  function ViewSlot(rf: Field, wf: Field, s: Slot): Slot
    decreases wf, 2
  {
    match s
    case Req(v) => Req(ViewValue(rf.ltype, wf.ltype, v))
    case Opt(has, v) => if has then Opt(true, ViewValue(rf.ltype, wf.ltype, v)) else Opt(false, InitValue(rf))
    case Sing(v) => Sing(ViewValue(rf.ltype, wf.ltype, v))
    case Rep(items) => Rep(ViewItems(rf.ltype, wf.ltype, items))
    case One(Some(v)) => One(Some(ViewValue(rf.ltype, wf.ltype, v)))
    case One(None) => One(None)
  }

  /** What reader field `j` holds once the writer's fields before `i` have been read. */
  function Want(rs: seq<Field>, ws: seq<Field>, m: seq<Slot>, i: nat, j: nat): Slot
    requires |ws| == |m| && i <= |ws| && j < |rs|
    decreases ws, 3
  {
    var k := Find(ws, rs[j].tag);
    if k.Some? && k.value < i then ViewSlot(rs[j], ws[k.value], m[k.value]) else DefaultSlot(rs[j])
  }

  /** The reader's message: shared fields as sent, at every depth, all others at their defaults. */
  function Project(rs: seq<Field>, ws: seq<Field>, m: seq<Slot>): (r: seq<Slot>)
    requires |ws| == |m|
    ensures |r| == |rs|
    ensures forall j :: 0 <= j < |rs| ==> r[j] == Want(rs, ws, m, |ws|, j)
    decreases ws, 4
  {
    seq(|rs|, j requires 0 <= j < |rs| => Want(rs, ws, m, |ws|, j))
  }

  /** Every required field that the reader tracks is one that the writer has. */
  predicate RequiredCovered(rs: seq<Field>, ws: seq<Field>) {
    forall j :: 0 <= j < |rs| && rs[j].htype.Required? && RequiredBefore(rs, j) < PB_MAX_REQUIRED_FIELDS ==>
      Find(ws, rs[j].tag).Some?
  }

  /** The reader can take the value in: no string fills its array, no length is too long, and nothing required is missing. */
  predicate CanRead(rl: LType, wl: LType, v: Val)
    decreases wl, 0
  {
    match (rl, wl, v)
    case (_, LString(n), VBytes(b)) => |CString(b, n)| < n
    case (LSubmessage(rs), LSubmessage(ws), VMsg(slots)) =>
      |ws| == |slots| && OkFrom(rs, ws, slots, 0) && RequiredCovered(rs, ws) && PrefixFits(wl, v)
    case _ => true
  }

  predicate CanReadItems(rl: LType, wl: LType, items: seq<Val>)
    decreases wl, 1, |items|
  {
    items == [] || (CanRead(rl, wl, items[0]) && CanReadItems(rl, wl, items[1..]))
  }

  predicate CanReadSlot(rf: Field, wf: Field, s: Slot)
    decreases wf, 2
  {
    match s
    case Req(v) => CanRead(rf.ltype, wf.ltype, v)
    case Opt(has, v) => has ==> CanRead(rf.ltype, wf.ltype, v)
    case Sing(v) => IsDefaultValue(wf.ltype, v) || CanRead(rf.ltype, wf.ltype, v)
    case Rep(items) => if Packable(wf.ltype) then PackedFits(wf.ltype, items) else CanReadItems(rf.ltype, wf.ltype, items)
    case One(Some(v)) => CanRead(rf.ltype, wf.ltype, v)
    case One(None) => true
  }

  predicate SlotOk(rs: seq<Field>, f: Field, s: Slot)
    decreases f, 3
  {
    if Find(rs, f.tag).Some? then CanReadSlot(rs[Find(rs, f.tag).value], f, s) else SkippableSlot(f, s)
  }

  /** Every field from `i` on can be read, or stepped over, by the reader. */
  predicate OkFrom(rs: seq<Field>, ws: seq<Field>, m: seq<Slot>, i: nat)
    requires |ws| == |m|
    decreases ws, 4
  {
    forall k :: i <= k < |ws| ==> SlotOk(rs, ws[k], m[k])
  }

  // ---------------------------------------------------------------- scalars

  lemma ScalarRoundTrip(l: LType, v: Val, t: seq<u8>)
    requires Packable(l) && ValidType(l) && Typed(l, v)
    ensures EncScalar(l, v).Some?
    ensures DecScalar(l, EncScalar(l, v).value + t) == Got(v, t)
  {
    hide EncVarint, Varint64, EncFixed, Fixed, ZigZag, UnZigZag;
    match l
    case LVarint(n) =>
      Varint64OfEnc(ToWord64(v.i), t);
      SignedWord(v.i, n);
    case LUvarint(n) =>
      Varint64OfEnc(ToWord64(v.i), t);
    case LSvarint(n) =>
      Varint64OfEnc(ZigZag(v.i), t);
      ZigZagRoundTrip(v.i);
    case LFixed32 =>
      assert Pow256(4) == TWO32;
      FixedOfEnc(v.i, 4, t);
    case LFixed64 =>
      assert Pow256(4) == TWO32;
      assert Pow256(8) == TWO64;
      FixedOfEnc(v.i, 8, t);
  }

  /** A narrow signed value is sent sign-extended to 64 bits, and its low 32 bits give it back. */
  lemma SignedWord(i: int, n: nat)
    requires FitsSigned(i, n)
    ensures n == 8 ==> ToSigned64(ToWord64(i)) == i
    ensures n != 8 ==> ToSigned32(ToWord64(i)) == i
  {
    if i < 0 {
      assert ToWord64(i) == TWO64 + i;
      assert (TWO64 + i) % TWO32 == (TWO32 + i) % TWO32 by {
        assert TWO64 + i == TWO32 + i + 0xFFFF_FFFF * TWO32;
      }
    } else {
      assert ToWord64(i) == i;
    }
  }

  lemma {:induction false} PackedRoundTrip(l: LType, items: seq<Val>, acc: seq<Val>, max: nat)
    requires Packable(l) && ValidType(l)
    requires forall k :: 0 <= k < |items| ==> Typed(l, items[k])
    requires |acc| + |items| <= max
    ensures EncPacked(l, items).Some?
    ensures DecPacked(l, EncPacked(l, items).value, acc, max) == Some(acc + items)
    decreases |items|
  {
    hide EncScalar, DecScalar, Typed;
    if items != [] {
      PackedRoundTrip(l, items[1..], acc + [items[0]], max);
      var rest := EncPacked(l, items[1..]).value;
      ScalarRoundTrip(l, items[0], rest);
      ScalarNonempty(l, items[0]);
      assert acc + [items[0]] + items[1..] == acc + items;
    } else {
      assert acc + items == acc;
    }
  }

  lemma ScalarNonempty(l: LType, v: Val)
    requires Packable(l) && EncScalar(l, v).Some?
    ensures EncScalar(l, v).value != []
  {
  }

  lemma DecTagOfEnc(tag: nat, wt: nat, t: seq<u8>)
    requires 1 <= tag < 0x2000_0000 && wt < 8
    ensures DecTag(EncTag(tag, wt) + t) == Got(Tag(tag, wt), t)
  {
    hide EncVarint, Varint32;
    Varint32OfEnc(tag * 8 + wt, t);
  }

  lemma SubstreamOfEnc(b: seq<u8>, t: seq<u8>)
    requires |b| < TWO63
    ensures Substream(EncString(b) + t) == if |b| < TWO32 then Got(b, t) else Fail
  {
    hide EncVarint, Varint32;
    Varint32OfEnc(|b|, b + t);
    assert EncString(b) + t == EncVarint(|b|) + (b + t);
    assert (b + t)[..|b|] == b && (b + t)[|b|..] == t;
  }

  // ---------------------------------------------------------------- one step of the loop

  /** How the loop goes on once field `j` has been read. */
  function AfterField(rs: seq<Field>, d: Dec, j: nat, r: Read<seq<Slot>>): Loop
    requires r.Got? ==> |r.value| == |rs|
  {
    match r case Fail => Error case Got(slots, rest) => DecLoop(rs, rest, Dec(slots, d.seen + {j}))
  }

  function AfterSkip(rs: seq<Field>, d: Dec, r: Read<()>): Loop
    requires |d.slots| == |rs|
  {
    match r case Fail => Error case Got(_, rest) => DecLoop(rs, rest, d)
  }

  lemma LoopKnown(rs: seq<Field>, tag: nat, wt: nat, body: seq<u8>, d: Dec, j: nat)
    requires |d.slots| == |rs| && Find(rs, tag) == Some(j)
    requires 1 <= tag < 0x2000_0000 && wt < 8
    ensures DecLoop(rs, EncTag(tag, wt) + body, d) == AfterField(rs, d, j, DecField(rs, j, wt, body, d.slots))
  {
    hide DecTag, EncTag, DecField, Find;
    DecTagOfEnc(tag, wt, body);
  }

  lemma LoopUnknown(rs: seq<Field>, tag: nat, wt: nat, body: seq<u8>, d: Dec)
    requires |d.slots| == |rs| && Find(rs, tag) == None
    requires 1 <= tag < 0x2000_0000 && wt < 8
    ensures DecLoop(rs, EncTag(tag, wt) + body, d) == AfterSkip(rs, d, SkipField(wt, body))
  {
    hide DecTag, EncTag, SkipField, Find;
    DecTagOfEnc(tag, wt, body);
  }

  lemma SkipOfEnc(l: LType, v: Val, t: seq<u8>)
    requires ValidType(l) && Typed(l, v) && EncValue(l, v).Some? && |EncValue(l, v).value| < TWO63
    ensures SkipField(WireType(l), EncValue(l, v).value + t) == if PrefixFits(l, v) then Got((), t) else Fail
  {
    hide EncVarint, Varint32, VarintLen, EncFixed, EncFrom, TypedMessage, ValidFields, ZigZag, CString;
    var e := EncValue(l, v).value;
    if l.LVarint? || l.LUvarint? {
      EncVarintTerminated(ToWord64(v.i), t);
      assert (e + t)[|e|..] == t;
    } else if l.LSvarint? {
      EncVarintTerminated(ZigZag(v.i), t);
      assert (e + t)[|e|..] == t;
    } else if l.LFixed32? || l.LFixed64? {
      assert (e + t)[|e|..] == t;
    } else {
      var b := SentBytes(l, v);
      SubstreamOfEnc(b, t);
      SkipIsSubstream(e + t);
    }
  }

  /** The contents of the length-prefixed form of a value. */
  function SentBytes(l: LType, v: Val): (b: seq<u8>)
    requires !Packable(l) && EncValue(l, v).Some?
    ensures EncValue(l, v).value == EncString(b)
    ensures ValidType(l) && !l.LSubmessage? ==> |b| < TWO32
  {
    match (l, v)
    case (LBytes(_), VBytes(b)) => b
    case (LString(n), VBytes(b)) => CString(b, n)
    case (LFixedBytes(_), VBytes(b)) => b
    case (LSubmessage(fs), VMsg(slots)) => EncFrom(fs, slots, 0).value
  }

  lemma SkipIsSubstream(s: seq<u8>)
    ensures Substream(s).Fail? ==> SkipField(WT_STRING, s) == Fail
    ensures Substream(s).Got? ==> SkipField(WT_STRING, s) == Got((), Substream(s).rest)
  {
    hide Varint32;
  }

  // ---------------------------------------------------------------- items

  lemma ValueRoundTrip(rl: LType, wl: LType, v: Val, t: seq<u8>, base: Val)
    requires ValidType(rl) && ValidType(wl) && AgreeType(rl, wl)
    requires Typed(wl, v) && EncValue(wl, v).Some? && |EncValue(wl, v).value| < TWO63
    requires rl.LSubmessage? ==> base == VMsg(Defaults(rl.fields))
    ensures DecValue(rl, EncValue(wl, v).value + t, base) == if CanRead(rl, wl, v) then Got(ViewValue(rl, wl, v), t) else Fail
    decreases wl, 1
  {
    if wl.LSubmessage? {
      SubmessageRoundTrip(rl, wl, v, t, base);
    } else if Packable(wl) {
      ScalarRoundTrip(wl, v, t);
    } else {
      StringRoundTrip(wl, v, t, base);
    }
  }

  lemma StringRoundTrip(l: LType, v: Val, t: seq<u8>, base: Val)
    requires ValidType(l) && Typed(l, v) && EncValue(l, v).Some?
    requires !Packable(l) && !l.LSubmessage?
    ensures DecValue(l, EncValue(l, v).value + t, base) == if CanRead(l, l, v) then Got(NormValue(l, v), t) else Fail
  {
    hide EncVarint, Varint32, CString;
    var b := SentBytes(l, v);
    Varint32OfEnc(|b|, b + t);
    assert EncString(b) + t == EncVarint(|b|) + (b + t);
    assert (b + t)[..|b|] == b && (b + t)[|b|..] == t;
  }

  lemma SubmessageRoundTrip(rl: LType, wl: LType, v: Val, t: seq<u8>, base: Val)
    requires ValidType(rl) && ValidType(wl) && AgreeType(rl, wl) && wl.LSubmessage?
    requires Typed(wl, v) && EncValue(wl, v).Some? && |EncValue(wl, v).value| < TWO63
    requires rl.LSubmessage? ==> base == VMsg(Defaults(rl.fields))
    ensures DecValue(rl, EncValue(wl, v).value + t, base) == if CanRead(rl, wl, v) then Got(ViewValue(rl, wl, v), t) else Fail
    decreases wl, 0
  {
    hide EncVarint, Varint32, Substream, EncFrom, DecodeNoinit, Project, ValidFields, TypedMessage, OkFrom, RequiredCovered, Agree;
    var rs, ws, slots := rl.fields, wl.fields, v.slots;
    var b := EncFrom(ws, slots, 0).value;
    SubstreamOfEnc(b, t);
    ReaderSchema(rs, ws, slots);
  }

  /** One tagged item of a field the reader has. */
  lemma TaggedKnown(rs: seq<Field>, j: nat, f: Field, v: Val, d: Dec, t: seq<u8>)
    requires ValidFields(rs) && |d.slots| == |rs| && j < |rs| && ValidField(f) && AgreeField(rs[j], f)
    requires Typed(f.ltype, v) && EncTagged(f, v).Some? && |EncTagged(f, v).value| < TWO63
    requires f.htype.Repeated? ==> !Packable(f.ltype) && |Items(d.slots[j])| < f.htype.arraySize
    requires rs[j].ltype.LSubmessage? ==> Base(rs[j], d.slots[j]) == InitValue(rs[j])
    ensures DecLoop(rs, EncTagged(f, v).value + t, d)
         == if CanRead(rs[j].ltype, f.ltype, v)
            then DecLoop(rs, t, Dec(Store(rs, d.slots, j, ViewValue(rs[j].ltype, f.ltype, v)), d.seen + {j}))
            else Error
    decreases f, 1
  {
    hide DecLoop, EncValue, Typed, CanRead, DecValue, ViewValue, Store, Base, InitValue, EncTag, Items, AgreeType;
    var rf := rs[j];
    var e := EncValue(f.ltype, v).value;
    assert EncTagged(f, v).value + t == EncTag(f.tag, WireType(f.ltype)) + (e + t);
    FindIndex(rs, j);
    SameWire(rf.ltype, f.ltype);
    LoopKnown(rs, f.tag, WireType(f.ltype), e + t, d, j);
    InitOfSubmessage(rf);
    ValueRoundTrip(rf.ltype, f.ltype, v, t, Base(rf, d.slots[j]));
  }

  lemma SameWire(rl: LType, wl: LType)
    requires AgreeType(rl, wl)
    ensures WireType(rl) == WireType(wl) && Packable(rl) == Packable(wl) && rl.LSubmessage? == wl.LSubmessage?
    ensures Packable(wl) ==> rl == wl
  {
  }

  lemma InitOfSubmessage(f: Field)
    ensures f.ltype.LSubmessage? ==> InitValue(f) == VMsg(Defaults(f.ltype.fields))
  {
  }

  lemma FindIndex(fs: seq<Field>, i: nat)
    requires ValidFields(fs) && i < |fs|
    ensures Find(fs, fs[i].tag) == Some(i)
    ensures ValidField(fs[i])
  {
  }

  lemma {:induction false} ItemsKnown(rs: seq<Field>, j: nat, f: Field, items: seq<Val>, acc: seq<Val>, d: Dec, t: seq<u8>)
    requires ValidFields(rs) && |d.slots| == |rs| && j < |rs| && ValidField(f) && AgreeField(rs[j], f)
    requires f.htype.Repeated? && !Packable(f.ltype) && d.slots[j] == Rep(acc)
    requires |acc| + |items| <= f.htype.arraySize
    requires forall k :: 0 <= k < |items| ==> Typed(f.ltype, items[k])
    requires EncItems(f, items).Some? && |EncItems(f, items).value| < TWO63
    ensures DecLoop(rs, EncItems(f, items).value + t, d)
         == if CanReadItems(rs[j].ltype, f.ltype, items) then DecLoop(rs, t, AfterItems(rs, j, f, items, acc, d)) else Error
    decreases f, 2, |items|
  {
    hide DecLoop, EncTagged, Typed, CanRead, ViewValue, Base, InitValue, AgreeType;
    var rf := rs[j];
    if items == [] {
      assert EncItems(f, items).value + t == t;
    } else {
      var b, rest := EncTagged(f, items[0]).value, EncItems(f, items[1..]).value;
      assert EncItems(f, items).value + t == b + (rest + t);
      BaseOfRepeated(rf, d.slots[j]);
      TaggedKnown(rs, j, f, items[0], d, rest + t);
      if CanRead(rf.ltype, f.ltype, items[0]) {
        var v := ViewValue(rf.ltype, f.ltype, items[0]);
        var d' := Dec(d.slots[j := Rep(acc + [v])], d.seen + {j});
        ItemsKnown(rs, j, f, items[1..], acc + [v], d', t);
        AfterItemsStep(rs, j, f, items, acc, d, v);
      }
    }
  }

  lemma BaseOfRepeated(f: Field, s: Slot)
    requires f.htype.Repeated?
    ensures Base(f, s) == InitValue(f)
  {
  }

  function AfterItems(rs: seq<Field>, j: nat, f: Field, items: seq<Val>, acc: seq<Val>, d: Dec): (r: Dec)
    requires |d.slots| == |rs| && j < |rs|
    ensures |r.slots| == |rs|
  {
    if items == [] then d else Dec(d.slots[j := Rep(acc + ViewItems(rs[j].ltype, f.ltype, items))], d.seen + {j})
  }

  lemma AfterItemsStep(rs: seq<Field>, j: nat, f: Field, items: seq<Val>, acc: seq<Val>, d: Dec, v: Val)
    requires |d.slots| == |rs| && j < |rs| && items != [] && v == ViewValue(rs[j].ltype, f.ltype, items[0])
    ensures AfterItems(rs, j, f, items[1..], acc + [v], Dec(d.slots[j := Rep(acc + [v])], d.seen + {j}))
         == AfterItems(rs, j, f, items, acc, d)
  {
    hide ViewValue;
    var rl, wl := rs[j].ltype, f.ltype;
    assert acc + [v] + ViewItems(rl, wl, items[1..]) == acc + ViewItems(rl, wl, items);
    assert d.seen + {j} + {j} == d.seen + {j};
    if |items| == 1 {
      assert acc + ViewItems(rl, wl, items) == acc + [v];
    }
  }

  // ---------------------------------------------------------------- fields

  /** The state after the encoding of slot `s` of the writer's field `f`, which the reader has as its field `j`. */
  function AfterSlot(rs: seq<Field>, j: nat, f: Field, s: Slot, d: Dec): (r: Dec)
    requires |d.slots| == |rs| && j < |rs|
    ensures |r.slots| == |rs|
  {
    if !Sent(f, s) then d
    else if s.One? then Dec(Store(rs, d.slots, j, ViewValue(rs[j].ltype, f.ltype, s.active.value)), d.seen + {j})
    else Dec(d.slots[j := ViewSlot(rs[j], f, s)], d.seen + {j})
  }

  predicate Sent(f: Field, s: Slot) {
    match s
    case Req(v) => true
    case Opt(has, v) => has
    case Sing(v) => !IsDefaultValue(f.ltype, v)
    case Rep(items) => items != []
    case One(active) => active.Some?
  }

  lemma FieldKnown(rs: seq<Field>, j: nat, f: Field, s: Slot, d: Dec, t: seq<u8>)
    requires ValidFields(rs) && |d.slots| == |rs| && j < |rs| && ValidField(f) && AgreeField(rs[j], f)
    requires TypedSlot(f, s) && EncField(f, s).Some? && |EncField(f, s).value| < TWO63
    requires d.slots[j] == DefaultSlot(rs[j])
    ensures DecLoop(rs, EncField(f, s).value + t, d)
         == if CanReadSlot(rs[j], f, s) then DecLoop(rs, t, AfterSlot(rs, j, f, s, d)) else Error
    decreases f, 3
  {
    hide DecLoop, EncTagged, Typed, CanRead, ViewValue, InitValue, ViewItems, EncItems, EncPacked, IsDefaultValue;
    hide PackedFits, CanReadItems, AgreeType;
    if !Sent(f, s) {
      assert EncField(f, s).value + t == t;
      NothingSent(rs[j], f, s);
    } else {
      match s
      case Req(v) => TaggedKnown(rs, j, f, v, d, t);
      case Opt(_, v) => TaggedKnown(rs, j, f, v, d, t);
      case Sing(v) => TaggedKnown(rs, j, f, v, d, t);
      case One(active) => TaggedKnown(rs, j, f, active.value, d, t);
      case Rep(items) =>
        if Packable(f.ltype) {
          PackedKnown(rs, j, f, items, d, t);
        } else {
          ItemsKnown(rs, j, f, items, [], d, t);
        }
        assert [] + ViewItems(rs[j].ltype, f.ltype, items) == ViewItems(rs[j].ltype, f.ltype, items);
    }
  }

  lemma NothingSent(rf: Field, f: Field, s: Slot)
    requires TypedSlot(f, s) && !Sent(f, s)
    ensures CanReadSlot(rf, f, s)
  {
    if s.Rep? && Packable(f.ltype) {
      assert EncPacked(f.ltype, s.items) == Some([]);
    }
  }

  lemma PackedKnown(rs: seq<Field>, j: nat, f: Field, items: seq<Val>, d: Dec, t: seq<u8>)
    requires ValidFields(rs) && |d.slots| == |rs| && j < |rs| && ValidField(f) && AgreeField(rs[j], f)
    requires f.htype.Repeated? && Packable(f.ltype) && d.slots[j] == Rep([])
    requires 0 < |items| <= f.htype.arraySize
    requires forall k :: 0 <= k < |items| ==> Typed(f.ltype, items[k])
    requires EncField(f, Rep(items)).Some? && |EncField(f, Rep(items)).value| < TWO63
    ensures DecLoop(rs, EncField(f, Rep(items)).value + t, d)
         == if PackedFits(f.ltype, items) then DecLoop(rs, t, AfterItems(rs, j, f, items, [], d)) else Error
  {
    hide DecLoop, Typed, ViewItems, EncPacked, EncString, Substream, EncTag, Find, DecPacked, AgreeType;
    FindIndex(rs, j);
    SameWire(rs[j].ltype, f.ltype);
    PackedRoundTrip(f.ltype, items, [], f.htype.arraySize);
    var b := EncPacked(f.ltype, items).value;
    assert [] + items == items;
    StringLonger(b);
    assert EncField(f, Rep(items)).value + t == EncTag(f.tag, WT_STRING) + (EncString(b) + t);
    SubstreamOfEnc(b, t);
    LoopKnown(rs, f.tag, WT_STRING, EncString(b) + t, d, j);
    PackedView(f.ltype, items);
  }

  lemma {:induction false} PackedView(l: LType, items: seq<Val>)
    requires Packable(l)
    ensures ViewItems(l, l, items) == items
  {
    if items != [] {
      PackedView(l, items[1..]);
    }
  }

  // ---------------------------------------------------------------- fields the reader does not have

  lemma TaggedUnknown(rs: seq<Field>, f: Field, v: Val, d: Dec, t: seq<u8>)
    requires |d.slots| == |rs| && Find(rs, f.tag) == None && ValidField(f)
    requires Typed(f.ltype, v) && EncTagged(f, v).Some? && |EncTagged(f, v).value| < TWO63
    ensures DecLoop(rs, EncTagged(f, v).value + t, d) == if PrefixFits(f.ltype, v) then DecLoop(rs, t, d) else Error
  {
    hide DecLoop, EncValue, Typed, PrefixFits, EncTag, Find, SkipField;
    var e := EncValue(f.ltype, v).value;
    assert EncTagged(f, v).value + t == EncTag(f.tag, WireType(f.ltype)) + (e + t);
    LoopUnknown(rs, f.tag, WireType(f.ltype), e + t, d);
    SkipOfEnc(f.ltype, v, t);
  }

  lemma {:induction false} ItemsUnknown(rs: seq<Field>, f: Field, items: seq<Val>, d: Dec, t: seq<u8>)
    requires |d.slots| == |rs| && Find(rs, f.tag) == None && ValidField(f)
    requires forall k :: 0 <= k < |items| ==> Typed(f.ltype, items[k])
    requires EncItems(f, items).Some? && |EncItems(f, items).value| < TWO63
    ensures DecLoop(rs, EncItems(f, items).value + t, d)
         == if forall k :: 0 <= k < |items| ==> PrefixFits(f.ltype, items[k]) then DecLoop(rs, t, d) else Error
    decreases |items|
  {
    hide DecLoop, EncTagged, Typed, PrefixFits, Find, ValidField;
    if items == [] {
      assert EncItems(f, items).value + t == t;
    } else {
      var b, rest := EncTagged(f, items[0]).value, EncItems(f, items[1..]).value;
      assert EncItems(f, items).value + t == b + (rest + t);
      TaggedUnknown(rs, f, items[0], d, rest + t);
      ItemsUnknown(rs, f, items[1..], d, t);
      assert forall k :: 0 < k < |items| ==> items[k] == items[1..][k - 1];
      assert forall k :: 0 <= k < |items| - 1 ==> items[1..][k] == items[k + 1];
    }
  }

  lemma PackedUnknown(rs: seq<Field>, f: Field, items: seq<Val>, d: Dec, t: seq<u8>)
    requires |d.slots| == |rs| && Find(rs, f.tag) == None && ValidField(f)
    requires f.htype.Repeated? && Packable(f.ltype) && items != []
    requires EncField(f, Rep(items)).Some? && |EncField(f, Rep(items)).value| < TWO63
    ensures DecLoop(rs, EncField(f, Rep(items)).value + t, d)
         == if PackedFits(f.ltype, items) then DecLoop(rs, t, d) else Error
  {
    hide DecLoop, EncPacked, EncString, EncTag, Find, SkipField, Substream;
    var b := EncPacked(f.ltype, items).value;
    StringLonger(b);
    assert EncField(f, Rep(items)).value + t == EncTag(f.tag, WT_STRING) + (EncString(b) + t);
    SubstreamOfEnc(b, t);
    SkipIsSubstream(EncString(b) + t);
    LoopUnknown(rs, f.tag, WT_STRING, EncString(b) + t, d);
  }

  lemma FieldUnknown(rs: seq<Field>, f: Field, s: Slot, d: Dec, t: seq<u8>)
    requires |d.slots| == |rs| && Find(rs, f.tag) == None && ValidField(f)
    requires TypedSlot(f, s) && EncField(f, s).Some? && |EncField(f, s).value| < TWO63
    ensures DecLoop(rs, EncField(f, s).value + t, d) == if SkippableSlot(f, s) then DecLoop(rs, t, d) else Error
  {
    hide DecLoop, EncTagged, Typed, PrefixFits, EncItems, EncPacked, IsDefaultValue, Find, ValidField, PackedFits;
    if !Sent(f, s) {
      assert EncField(f, s).value + t == t;
      NothingToSkip(f, s);
    } else {
      match s
      case Req(v) => TaggedUnknown(rs, f, v, d, t);
      case Opt(_, v) => TaggedUnknown(rs, f, v, d, t);
      case Sing(v) => TaggedUnknown(rs, f, v, d, t);
      case One(active) => TaggedUnknown(rs, f, active.value, d, t);
      case Rep(items) =>
        if Packable(f.ltype) {
          PackedUnknown(rs, f, items, d, t);
        } else {
          ItemsUnknown(rs, f, items, d, t);
        }
    }
  }

  lemma NothingToSkip(f: Field, s: Slot)
    requires !Sent(f, s)
    ensures SkippableSlot(f, s)
  {
    if s.Rep? && Packable(f.ltype) {
      assert EncPacked(f.ltype, s.items) == Some([]);
    }
  }

  // ---------------------------------------------------------------- messages

  predicate Reached(rs: seq<Field>, ws: seq<Field>, m: seq<Slot>, i: nat, d: Dec)
    requires |ws| == |m| && i <= |ws|
  {
    && |d.slots| == |rs|
    && (forall j :: 0 <= j < |rs| ==> d.slots[j] == Want(rs, ws, m, i, j))
    && (forall j :: 0 <= j < |rs| && rs[j].htype.Required? ==>
          (j in d.seen <==> Find(ws, rs[j].tag).Some? && Find(ws, rs[j].tag).value < i))
  }

  lemma {:induction false} ReaderLoop(rs: seq<Field>, ws: seq<Field>, m: seq<Slot>, i: nat, d: Dec) returns (d': Dec)
    requires ValidFields(rs) && ValidFields(ws) && Agree(rs, ws) && TypedMessage(ws, m) && i <= |ws|
    requires EncFrom(ws, m, i).Some? && |EncFrom(ws, m, i).value| < TWO63
    requires Reached(rs, ws, m, i, d)
    ensures OkFrom(rs, ws, m, i) ==>
              Reached(rs, ws, m, |ws|, d') && DecLoop(rs, EncFrom(ws, m, i).value, d) == Stop(d', false, [])
    ensures !OkFrom(rs, ws, m, i) ==> DecLoop(rs, EncFrom(ws, m, i).value, d) == Error
    decreases ws, |ws| - i
  {
    hide DecLoop, EncField, Reached, SlotOk, ValidFields, Agree, TypedMessage;
    ReachedLengths(rs, ws, m, i, d);
    if i == |ws| {
      d' := d;
      EmptyLoop(rs, d);
    } else {
      var b, rest := EncField(ws[i], m[i]).value, EncFrom(ws, m, i + 1).value;
      var d1 := ReaderField(rs, ws, m, i, d, rest);
      if SlotOk(rs, ws[i], m[i]) {
        d' := ReaderLoop(rs, ws, m, i + 1, d1);
      } else {
        d' := d;
      }
    }
  }

  lemma ReachedLengths(rs: seq<Field>, ws: seq<Field>, m: seq<Slot>, i: nat, d: Dec)
    requires TypedMessage(ws, m)
    ensures |ws| == |m|
    ensures i <= |ws| && Reached(rs, ws, m, i, d) ==> |d.slots| == |rs|
  {
  }

  lemma EmptyLoop(rs: seq<Field>, d: Dec)
    requires |d.slots| == |rs|
    ensures DecLoop(rs, [], d) == Stop(d, false, [])
  {
  }

  lemma ReaderField(rs: seq<Field>, ws: seq<Field>, m: seq<Slot>, i: nat, d: Dec, t: seq<u8>) returns (d': Dec)
    requires ValidFields(rs) && ValidFields(ws) && Agree(rs, ws) && TypedMessage(ws, m) && i < |ws|
    requires EncField(ws[i], m[i]).Some? && |EncField(ws[i], m[i]).value| < TWO63
    requires Reached(rs, ws, m, i, d)
    ensures SlotOk(rs, ws[i], m[i]) ==>
              Reached(rs, ws, m, i + 1, d') && DecLoop(rs, EncField(ws[i], m[i]).value + t, d) == DecLoop(rs, t, d')
    ensures !SlotOk(rs, ws[i], m[i]) ==> DecLoop(rs, EncField(ws[i], m[i]).value + t, d) == Error
    decreases ws, 0
  {
    hide DecLoop, EncField, CanReadSlot, SkippableSlot, TypedSlot, Want, AfterSlot, AgreeField;
    var f := ws[i];
    FindIndex(ws, i);
    if Find(rs, f.tag).None? {
      d' := d;
      FieldUnknown(rs, f, m[i], d, t);
      ReachedUnknown(rs, ws, m, i, d);
    } else {
      var j := Find(rs, f.tag).value;
      WantBefore(rs, ws, m, i, j);
      AgreeAt(rs, ws, i, j);
      FieldKnown(rs, j, f, m[i], d, t);
      d' := AfterSlot(rs, j, f, m[i], d);
      ReachedKnown(rs, ws, m, i, d, j);
    }
  }

  lemma AgreeAt(rs: seq<Field>, ws: seq<Field>, i: nat, j: nat)
    requires Agree(rs, ws) && i < |ws| && Find(rs, ws[i].tag) == Some(j)
    ensures AgreeField(rs[j], ws[i])
  {
    hide AgreeField, Find;
  }

  lemma WantBefore(rs: seq<Field>, ws: seq<Field>, m: seq<Slot>, i: nat, j: nat)
    requires ValidFields(ws) && |ws| == |m| && i < |ws| && j < |rs| && rs[j].tag == ws[i].tag
    ensures Want(rs, ws, m, i, j) == DefaultSlot(rs[j])
    ensures Want(rs, ws, m, i + 1, j) == ViewSlot(rs[j], ws[i], m[i])
  {
    FindIndex(ws, i);
  }

  lemma WantOther(rs: seq<Field>, ws: seq<Field>, m: seq<Slot>, i: nat, j: nat)
    requires |ws| == |m| && i < |ws| && j < |rs| && rs[j].tag != ws[i].tag
    ensures Want(rs, ws, m, i + 1, j) == Want(rs, ws, m, i, j)
  {
  }

  lemma ReachedUnknown(rs: seq<Field>, ws: seq<Field>, m: seq<Slot>, i: nat, d: Dec)
    requires |ws| == |m| && i < |ws| && Find(rs, ws[i].tag) == None
    requires Reached(rs, ws, m, i, d)
    ensures Reached(rs, ws, m, i + 1, d)
  {
    hide Want;
    forall j | 0 <= j < |rs|
      ensures rs[j].tag != ws[i].tag && d.slots[j] == Want(rs, ws, m, i + 1, j)
    {
      WantOther(rs, ws, m, i, j);
    }
  }

  lemma ReachedKnown(rs: seq<Field>, ws: seq<Field>, m: seq<Slot>, i: nat, d: Dec, j: nat)
    requires ValidFields(rs) && ValidFields(ws) && Agree(rs, ws) && TypedMessage(ws, m)
    requires i < |ws| && Find(rs, ws[i].tag) == Some(j)
    requires Reached(rs, ws, m, i, d)
    ensures Reached(rs, ws, m, i + 1, AfterSlot(rs, j, ws[i], m[i], d))
  {
    hide Want, AfterSlot, AgreeType;
    var d' := AfterSlot(rs, j, ws[i], m[i], d);
    AgreeAt(rs, ws, i, j);
    FindIndex(ws, i);
    FindIndex(rs, j);
    assert TypedSlot(ws[i], m[i]);
    AfterSlotSeen(rs, j, ws[i], m[i], d);
    forall k | 0 <= k < |rs|
      ensures d'.slots[k] == Want(rs, ws, m, i + 1, k)
    {
      if k == j {
        WantBefore(rs, ws, m, i, j);
        AfterSlotAt(rs, j, ws[i], m[i], d);
      } else {
        assert rs[k].tag != ws[i].tag;
        WantOther(rs, ws, m, i, k);
        if m[i].One? && m[i].active.Some? && rs[k].htype == rs[j].htype {
          UnionWant(rs, ws, m, i, k);
        }
        AfterSlotOther(rs, j, ws[i], m[i], d, k);
      }
    }
  }

  lemma AfterSlotSeen(rs: seq<Field>, j: nat, f: Field, s: Slot, d: Dec)
    requires |d.slots| == |rs| && j < |rs| && TypedSlot(f, s)
    ensures forall k :: k in AfterSlot(rs, j, f, s, d).seen <==> k in d.seen || (k == j && Sent(f, s))
    ensures f.htype.Required? ==> Sent(f, s)
  {
  }

  lemma AfterSlotAt(rs: seq<Field>, j: nat, f: Field, s: Slot, d: Dec)
    requires |d.slots| == |rs| && j < |rs| && TypedSlot(f, s) && AgreeField(rs[j], f)
    requires d.slots[j] == DefaultSlot(rs[j]) && ValidField(rs[j]) && ValidField(f)
    ensures AfterSlot(rs, j, f, s, d).slots[j] == ViewSlot(rs[j], f, s)
  {
    hide ViewValue, InitValue, IsDefaultValue, Typed, AgreeType;
    if s.Sing? && IsDefaultValue(f.ltype, s.v) {
      DefaultIsInit(rs[j], f, s.v);
    }
  }

  lemma AfterSlotOther(rs: seq<Field>, j: nat, f: Field, s: Slot, d: Dec, k: nat)
    requires |d.slots| == |rs| && j < |rs| && k < |rs| && k != j && TypedSlot(f, s)
    requires s.One? && s.active.Some? && rs[k].htype == rs[j].htype ==> d.slots[k] == One(None)
    requires rs[j].htype == f.htype
    ensures AfterSlot(rs, j, f, s, d).slots[k] == d.slots[k]
  {
    hide ViewValue, InitValue, IsDefaultValue, Typed;
  }

  /** While one member of a union is active, every other member is at rest. */
  lemma UnionWant(rs: seq<Field>, ws: seq<Field>, m: seq<Slot>, i: nat, k: nat)
    requires ValidFields(ws) && Agree(rs, ws) && ValidFields(rs) && TypedMessage(ws, m) && i < |ws| && k < |rs|
    requires ws[i].htype.Oneof? && rs[k].htype == ws[i].htype && rs[k].tag != ws[i].tag && m[i] != One(None)
    ensures Want(rs, ws, m, i, k) == One(None)
  {
    hide AgreeType;
    var q := Find(ws, rs[k].tag);
    if q.Some? {
      FindIndex(rs, k);
      AgreeAt(rs, ws, q.value, k);
    }
  }

  /** A singular field that is not sent holds its default. */
  lemma DefaultIsInit(rf: Field, f: Field, v: Val)
    requires ValidField(rf) && ValidField(f) && AgreeField(rf, f) && Typed(f.ltype, v)
    requires IsDefaultValue(f.ltype, v) && rf.init.None?
    ensures ViewValue(rf.ltype, f.ltype, v) == InitValue(rf)
    decreases f, 1
  {
    hide Project;
    if f.ltype.LSubmessage? {
      DefaultMessage(rf.ltype.fields, f.ltype.fields, v.slots);
    }
  }

  lemma DefaultMessage(rs: seq<Field>, ws: seq<Field>, slots: seq<Slot>)
    requires ValidFields(rs) && ValidFields(ws) && Agree(rs, ws) && TypedMessage(ws, slots) && IsDefaultFrom(ws, slots, 0)
    ensures Project(rs, ws, slots) == Defaults(rs)
    decreases ws, 0
  {
    hide ViewSlot, AgreeField, TypedSlot, ValidField;
    forall j | 0 <= j < |rs|
      ensures Want(rs, ws, slots, |ws|, j) == DefaultSlot(rs[j])
    {
      var k := Find(ws, rs[j].tag);
      if k.Some? {
        FindIndex(rs, j);
        FindIndex(ws, k.value);
        AgreeAt(rs, ws, k.value, j);
        DefaultFromAt(ws, slots, 0, k.value);
        DefaultSlotIsInit(rs[j], ws[k.value], slots[k.value]);
      }
    }
  }

  lemma DefaultSlotIsInit(rf: Field, f: Field, s: Slot)
    requires ValidField(rf) && ValidField(f) && AgreeField(rf, f) && TypedSlot(f, s) && IsDefaultSlot(f, s)
    ensures ViewSlot(rf, f, s) == DefaultSlot(rf)
    decreases f, 2
  {
    hide ViewValue, InitValue, Typed, IsDefaultValue, AgreeType;
    if s.Sing? {
      DefaultIsInit(rf, f, s.v);
    }
  }

  lemma {:induction false} DefaultFromAt(fs: seq<Field>, slots: seq<Slot>, i: nat, j: nat)
    requires |fs| == |slots| && i <= j < |fs| && IsDefaultFrom(fs, slots, i)
    ensures IsDefaultSlot(fs[j], slots[j])
    decreases |fs| - i
  {
    hide IsDefaultSlot;
    if i < j {
      DefaultFromAt(fs, slots, i + 1, j);
    }
  }

  // ---------------------------------------------------------------- the theorems

  /**
   Reading a message through another descriptor, which at every depth may have fewer fields, more, or both.
   Decoding succeeds exactly when every shared field can be decoded, every other field can be stepped over, and
   no tracked required field is missing; it then consumes the input and yields the projection of the message.
   */
  lemma ReaderSchema(rs: seq<Field>, ws: seq<Field>, m: seq<Slot>)
    requires ValidFields(rs) && ValidFields(ws) && Agree(rs, ws) && TypedMessage(ws, m)
    requires Encode(ws, m).Some? && |Encode(ws, m).value| < TWO63
    ensures var r := Decode(rs, Encode(ws, m).value);
            && (r.Got? <==> OkFrom(rs, ws, m, 0) && RequiredCovered(rs, ws))
            && (r.Got? ==> r.value.slots == Project(rs, ws, m) && r.rest == [])
    decreases ws, |ws| + 1
  {
    hide DecLoop, EncFrom, OkFrom, ValidFields, Agree, Want;
    var d := Dec(Defaults(rs), {});
    ReachedStart(rs, ws, m);
    var d' := ReaderLoop(rs, ws, m, 0, d);
    if OkFrom(rs, ws, m, 0) {
      assert RequiredMet(rs, d'.seen) <==> RequiredCovered(rs, ws);
      assert d'.slots == Project(rs, ws, m);
    }
  }

  lemma ReachedStart(rs: seq<Field>, ws: seq<Field>, m: seq<Slot>)
    requires |ws| == |m|
    ensures Reached(rs, ws, m, 0, Dec(Defaults(rs), {}))
  {
  }

  lemma FindsItself(fs: seq<Field>)
    requires ValidFields(fs)
    ensures forall k :: 0 <= k < |fs| ==> Find(fs, fs[k].tag) == Some(k)
  {
    forall k | 0 <= k < |fs|
      ensures Find(fs, fs[k].tag) == Some(k)
    {
      FindIndex(fs, k);
    }
  }

  // ---------------------------------------------------------------- the same descriptor on both sides

  lemma SameValue(l: LType, v: Val)
    requires ValidType(l)
    ensures ViewValue(l, l, v) == NormValue(l, v) && (CanRead(l, l, v) <==> Decodable(l, v))
    decreases l, 0
  {
    hide Project, NormFrom, OkFrom, DecodableMessage, RequiredCovered, ValidFields, PrefixFits;
    if l.LSubmessage? && v.VMsg? && |l.fields| == |v.slots| {
      FindsItself(l.fields);
      AllCovered(l.fields);
      SameMessage(l.fields, v.slots);
    } else if l.LSubmessage? && v.VMsg? {
      NotDecodable(l.fields, v.slots);
    }
  }

  lemma NotDecodable(fs: seq<Field>, slots: seq<Slot>)
    requires |fs| != |slots|
    ensures !DecodableMessage(fs, slots)
  {
  }

  lemma AllCovered(fs: seq<Field>)
    requires forall k :: 0 <= k < |fs| ==> Find(fs, fs[k].tag) == Some(k)
    ensures RequiredCovered(fs, fs)
  {
    hide Find;
  }

  lemma {:induction false} SameItems(l: LType, items: seq<Val>)
    requires ValidType(l)
    ensures ViewItems(l, l, items) == NormItems(l, items) && (CanReadItems(l, l, items) <==> DecodableItems(l, items))
    decreases l, 1, |items|
  {
    hide ViewValue, NormValue, CanRead, Decodable, ValidType;
    if items != [] {
      SameValue(l, items[0]);
      SameItems(l, items[1..]);
    }
  }

  lemma SameSlot(f: Field, s: Slot)
    requires ValidField(f)
    ensures ViewSlot(f, f, s) == NormSlot(f, s) && (CanReadSlot(f, f, s) <==> DecodableSlot(f, s))
    decreases f, 2
  {
    hide ViewValue, NormValue, CanRead, Decodable, ViewItems, NormItems, CanReadItems, DecodableItems, ValidType, PackedFits,
      IsDefaultValue, InitValue;
    match s
    case Req(v) => SameValue(f.ltype, v);
    case Opt(_, v) => SameValue(f.ltype, v);
    case Sing(v) => SameValue(f.ltype, v);
    case Rep(items) => SameItems(f.ltype, items);
    case One(active) =>
      if active.Some? {
        SameValue(f.ltype, active.value);
      }
  }

  lemma SameMessage(fs: seq<Field>, slots: seq<Slot>)
    requires ValidFields(fs) && |fs| == |slots|
    ensures Project(fs, fs, slots) == NormFrom(fs, slots, 0) && (OkFrom(fs, fs, slots, 0) <==> DecodableMessage(fs, slots))
    decreases fs, 3
  {
    hide ViewSlot, NormSlot, CanReadSlot, DecodableSlot, SkippableSlot, ValidField;
    FindsItself(fs);
    forall k | 0 <= k < |fs|
      ensures Want(fs, fs, slots, |fs|, k) == NormSlot(fs[k], slots[k])
      ensures SlotOk(fs, fs[k], slots[k]) <==> DecodableSlot(fs[k], slots[k])
    {
      FindIndex(fs, k);
      SameSlot(fs[k], slots[k]);
    }
  }

  lemma AgreesItself(fs: seq<Field>)
    requires ValidFields(fs)
    ensures Agree(fs, fs)
    decreases fs, 2
  {
    forall k | 0 <= k < |fs|
      ensures Find(fs, fs[k].tag) == Some(k) && AgreeField(fs[k], fs[k])
    {
      FindIndex(fs, k);
      SameField(fs[k]);
    }
  }

  lemma SameField(f: Field)
    requires ValidField(f)
    ensures AgreeField(f, f)
    decreases f, 1
  {
    if f.ltype.LSubmessage? {
      AgreesItself(f.ltype.fields);
    }
  }

  lemma SameSchema(fs: seq<Field>, slots: seq<Slot>)
    requires ValidFields(fs) && TypedMessage(fs, slots)
    requires EncFrom(fs, slots, 0).Some? && |EncFrom(fs, slots, 0).value| < TWO63
    ensures var r := DecodeNoinit(fs, EncFrom(fs, slots, 0).value, Defaults(fs));
            && (r.Got? <==> DecodableMessage(fs, slots))
            && (r.Got? ==> r.value.slots == NormFrom(fs, slots, 0) && r.rest == [])
  {
    hide DecodeNoinit, EncFrom, DecodableMessage, OkFrom, Project, NormFrom, Find, Agree, RequiredCovered, ValidFields;
    AgreesItself(fs);
    FindsItself(fs);
    AllCovered(fs);
    ReaderSchema(fs, fs, slots);
    SameMessage(fs, slots);
  }

  /**
   The round trip. For every well-formed descriptor and every message that encodes, decoding succeeds
   exactly when no string fills its array (and every nested length fits 32 bits); it then consumes all
   the bytes and gives back the message.
   */
  lemma RoundTrip(fs: seq<Field>, m: seq<Slot>)
    requires ValidFields(fs) && TypedMessage(fs, m)
    requires Encode(fs, m).Some? && |Encode(fs, m).value| < TWO63
    ensures var r := Decode(fs, Encode(fs, m).value);
            && (r.Got? <==> DecodableMessage(fs, m))
            && (r.Got? ==> r.value.slots == NormFrom(fs, m, 0) && r.rest == [])
  {
    SameSchema(fs, m);
  }

  /** A string that fills its array has no room for the NUL on the way back: it encodes but does not decode. */
  lemma FullStringFails()
    ensures var fs := [Field(1, LString(1), Required, None)];
            var m := [Req(VBytes([65]))];
            && ValidFields(fs) && TypedMessage(fs, m)
            && Encode(fs, m).Some? && Decode(fs, Encode(fs, m).value).Fail?
  {
    hide DecodeNoinit, EncVarint;
    var fs := [Field(1, LString(1), Required, None)];
    var m := [Req(VBytes([65]))];
    assert CString([65], 1) == [65];
    assert ValidField(fs[0]);
    SmallVarint(10);
    SmallVarint(1);
    assert EncField(fs[0], m[0]).Some?;
    assert EncFrom(fs, m, 1) == Some([]);
    assert !DecodableSlot(fs[0], m[0]);
    RoundTrip(fs, m);
  }

  lemma SmallVarint(v: nat)
    requires v < 128
    ensures EncVarint(v) == [v]
  {
  }

  // ---------------------------------------------------------------- encoding again

  lemma {:induction false} CStringTwice(b: seq<u8>, n: nat)
    ensures CString(CString(b, n), n) == CString(b, n)
    decreases n
  {
    if n > 0 && b != [] && b[0] != 0 {
      CStringTwice(b[1..], n - 1);
      assert ([b[0]] + CString(b[1..], n - 1))[1..] == CString(b[1..], n - 1);
    }
  }

  lemma ValueAgain(l: LType, v: Val)
    ensures EncValue(l, NormValue(l, v)) == EncValue(l, v)
    ensures IsDefaultValue(l, NormValue(l, v)) <==> IsDefaultValue(l, v)
    decreases l, 0
  {
    hide EncScalar, EncFrom, IsDefaultFrom;
    match (l, v)
    case (LString(n), VBytes(b)) =>
      CStringTwice(b, n);
    case (LSubmessage(fs), VMsg(slots)) =>
      if |fs| == |slots| {
        FromAgain(fs, slots, 0);
      }
    case _ =>
  }

  lemma {:induction false} ItemsAgain(f: Field, items: seq<Val>)
    ensures EncItems(f, NormItems(f.ltype, items)) == EncItems(f, items)
    decreases f, 1, |items|
  {
    hide EncValue, NormValue;
    if items != [] {
      ValueAgain(f.ltype, items[0]);
      ItemsAgain(f, items[1..]);
      assert NormItems(f.ltype, items)[1..] == NormItems(f.ltype, items[1..]);
    }
  }

  lemma {:induction false} PackedSame(l: LType, items: seq<Val>)
    requires Packable(l)
    ensures NormItems(l, items) == items
  {
    if items != [] {
      PackedSame(l, items[1..]);
    }
  }

  lemma SlotAgain(f: Field, s: Slot)
    ensures EncField(f, NormSlot(f, s)) == EncField(f, s)
    ensures IsDefaultSlot(f, NormSlot(f, s)) <==> IsDefaultSlot(f, s)
    decreases f, 2
  {
    hide EncValue, NormValue, IsDefaultValue, InitValue, EncItems, EncPacked;
    match s
    case Req(v) => ValueAgain(f.ltype, v);
    case Opt(_, v) => ValueAgain(f.ltype, v);
    case Sing(v) => ValueAgain(f.ltype, v);
    case Rep(items) =>
      ItemsAgain(f, items);
      if Packable(f.ltype) {
        PackedSame(f.ltype, items);
      }
    case One(active) =>
      if active.Some? {
        ValueAgain(f.ltype, active.value);
      }
  }

  lemma {:induction false} FromAgain(fs: seq<Field>, slots: seq<Slot>, i: nat)
    requires |fs| == |slots| && i <= |fs|
    ensures EncFrom(fs, NormFrom(fs, slots, 0), i) == EncFrom(fs, slots, i)
    ensures IsDefaultFrom(fs, NormFrom(fs, slots, 0), i) <==> IsDefaultFrom(fs, slots, i)
    decreases fs, |fs| - i
  {
    hide EncField, NormSlot, IsDefaultSlot;
    if i < |fs| {
      SlotAgain(fs[i], slots[i]);
      FromAgain(fs, slots, i + 1);
      assert NormFrom(fs, slots, 0)[i] == NormSlot(fs[i], slots[i]);
    }
  }

  /** The decoded message stands for the same bytes: encoding it again gives back what was decoded. */
  lemma Reencode(fs: seq<Field>, m: seq<Slot>)
    requires ValidFields(fs) && TypedMessage(fs, m)
    requires Encode(fs, m).Some? && |Encode(fs, m).value| < TWO63
    ensures var r := Decode(fs, Encode(fs, m).value);
            r.Got? ==> Encode(fs, r.value.slots) == Encode(fs, m)
  {
    hide DecodeNoinit, EncFrom;
    RoundTrip(fs, m);
    FromAgain(fs, m, 0);
  }
}
