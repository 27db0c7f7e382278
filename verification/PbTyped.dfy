/**
 Decoding any bytes at all keeps the message within its storage: every value fits its type, no array and no string
 is longer than its field allows, and of each union at most one member is active, the one that came last.
 */
module PbTyped {
  import opened Prelude
  import opened PbWire
  import opened PbModel
  import opened PbRoundTrip
  import M = PbMerge

  /** What the storage of one item can hold. A string has its NUL, and bytes have their count in front. */
  predicate Stored(l: LType, v: Val)
    decreases l, 0
  {
    match l
    case LVarint(n) => v.VInt? && FitsSigned(v.i, n)
    case LUvarint(n) => v.VInt? && FitsUnsigned(v.i, n)
    case LSvarint(n) => v.VInt? && FitsSigned(v.i, n)
    case LFixed32 => v.VInt? && 0 <= v.i < 0x1_0000_0000
    case LFixed64 => v.VInt? && 0 <= v.i < 0x1_0000_0000_0000_0000
    case LBytes(n) => v.VBytes? && (v.b == [] || |v.b| + 4 <= n)
    case LString(n) => v.VBytes? && (v.b == [] || |v.b| + 1 <= n)
    case LFixedBytes(n) => v.VBytes? && |v.b| == n
    case LSubmessage(fs) => v.VMsg? && StoredMessage(fs, v.slots)
  }

  /** The storage behind a has-flag that is not set counts too, as a nested message is decoded over what is there. */
  predicate StoredSlot(f: Field, s: Slot)
    decreases f, 1
  {
    match (f.htype, s)
    case (Required, Req(v)) => Stored(f.ltype, v)
    case (Optional, Opt(_, v)) => Stored(f.ltype, v)
    case (Singular, Sing(v)) => Stored(f.ltype, v)
    case (Repeated(max), Rep(items)) => |items| <= max && forall k :: 0 <= k < |items| ==> Stored(f.ltype, items[k])
    case (Oneof(_), One(active)) => active.Some? ==> Stored(f.ltype, active.value)
    case _ => false
  }

  predicate StoredMessage(fs: seq<Field>, slots: seq<Slot>)
    decreases fs, 2
  {
    && |fs| == |slots|
    && (forall i :: 0 <= i < |fs| ==> StoredSlot(fs[i], slots[i]))
    && (forall i, j :: 0 <= i < j < |fs| && fs[i].htype.Oneof? && fs[i].htype == fs[j].htype
          ==> slots[i] == One(None) || slots[j] == One(None))
  }

  /** The defaults of a descriptor can be stored, at every depth. */
  predicate ValidInit(f: Field)
    decreases f, 0
  {
    match f.ltype
    case LSubmessage(sub) => ValidInits(sub)
    case _ => f.init.Some? ==> Stored(f.ltype, f.init.value)
  }

  predicate ValidInits(fs: seq<Field>)
    decreases fs, 1
  {
    forall i :: 0 <= i < |fs| ==> ValidField(fs[i]) && ValidInit(fs[i])
  }

  // ---------------------------------------------------------------- defaults

  lemma InitStored(f: Field)
    requires ValidField(f) && ValidInit(f)
    ensures Stored(f.ltype, InitValue(f))
    decreases f, 0
  {
    if f.ltype.LSubmessage? {
      DefaultsStored(f.ltype.fields);
    }
  }

  lemma DefaultsStored(fs: seq<Field>)
    requires ValidInits(fs)
    ensures StoredMessage(fs, Defaults(fs))
    decreases fs, 1
  {
    hide StoredSlot, DefaultSlot, DefaultFrom, ValidField, ValidInit;
    forall i | 0 <= i < |fs|
      ensures StoredSlot(fs[i], DefaultSlot(fs[i])) && (fs[i].htype.Oneof? ==> DefaultSlot(fs[i]) == One(None))
    {
      InitStored(fs[i]);
      SlotStored(fs[i]);
    }
  }

  lemma SlotStored(f: Field)
    requires Stored(f.ltype, InitValue(f))
    ensures StoredSlot(f, DefaultSlot(f)) && (f.htype.Oneof? ==> DefaultSlot(f) == One(None))
  {
    hide Stored, InitValue;
  }

  // ---------------------------------------------------------------- one value

  lemma ScalarStored(l: LType, s: seq<u8>)
    requires Packable(l) && ValidType(l) && DecScalar(l, s).Got?
    ensures Stored(l, DecScalar(l, s).value)
  {
    hide Varint64, UnZigZag, ToSigned64, ToSigned32;
    match l
    case LFixed32 => FixedBound(s, 4);
    case LFixed64 => FixedBound(s, 8);
    case _ =>
  }

  lemma FixedBound(s: seq<u8>, n: nat)
    requires Fixed(s, n).Got?
    ensures 0 <= Fixed(s, n).value < Pow256(n)
    ensures Pow256(4) == 0x1_0000_0000 && Pow256(8) == 0x1_0000_0000_0000_0000
  {
    LittleEndianBound(s[..n]);
    assert Pow256(4) == 0x1_0000_0000;
  }

  lemma {:induction false} LittleEndianBound(b: seq<u8>)
    ensures 0 <= LittleEndian(b) < Pow256(|b|)
    decreases |b|
  {
    if b != [] {
      LittleEndianBound(b[1..]);
    }
  }

  lemma {:induction false} PackedStored(l: LType, sub: seq<u8>, items: seq<Val>, max: nat)
    requires Packable(l) && ValidType(l) && |items| <= max
    requires forall k :: 0 <= k < |items| ==> Stored(l, items[k])
    ensures var r := DecPacked(l, sub, items, max);
            r.Some? ==> |r.value| <= max && forall k :: 0 <= k < |r.value| ==> Stored(l, r.value[k])
    decreases |sub|
  {
    hide Stored, DecScalar;
    if sub != [] && |items| < max && DecScalar(l, sub).Got? {
      ScalarStored(l, sub);
      PackedStored(l, DecScalar(l, sub).rest, items + [DecScalar(l, sub).value], max);
    }
  }

  lemma {:induction false} ValueStored(l: LType, s: seq<u8>, base: Val)
    requires ValidType(l) && DecValue(l, s, base).Got?
    requires l.LSubmessage? ==> Stored(l, base) && ValidInits(l.fields)
    ensures Stored(l, DecValue(l, s, base).value)
    decreases |s|, 0
  {
    hide DecScalar, Varint32, Substream, DecodeNoinit, StoredMessage, ValidFields, ValidInits;
    if Packable(l) {
      ScalarStored(l, s);
    } else if l.LSubmessage? {
      StoredLength(l.fields, base.slots);
      MessageStored(l.fields, Substream(s).value, base.slots);
    }
  }

  lemma StoredLength(fs: seq<Field>, slots: seq<Slot>)
    requires StoredMessage(fs, slots)
    ensures |fs| == |slots|
  {
  }

  // ---------------------------------------------------------------- one field

  /** What a field is decoded over can be stored. */
  lemma BaseStored(f: Field, s: Slot)
    requires ValidField(f) && ValidInit(f) && StoredSlot(f, s)
    ensures Stored(f.ltype, Base(f, s))
  {
    hide Stored, InitValue;
    InitStored(f);
  }

  lemma StoreStored(fs: seq<Field>, slots: seq<Slot>, i: nat, v: Val)
    requires StoredMessage(fs, slots) && i < |fs| && Stored(fs[i].ltype, v)
    requires fs[i].htype.Repeated? ==> |Items(slots[i])| < fs[i].htype.arraySize
    ensures StoredMessage(fs, Store(fs, slots, i, v))
  {
    hide Stored;
    var r := Store(fs, slots, i, v);
    forall k | 0 <= k < |fs|
      ensures StoredSlot(fs[k], r[k])
    {
      assert StoredSlot(fs[k], slots[k]) && StoredSlot(fs[i], slots[i]);
    }
  }

  lemma {:induction false} FieldStored(fs: seq<Field>, i: nat, wt: nat, s: seq<u8>, slots: seq<Slot>)
    requires ValidInits(fs) && StoredMessage(fs, slots) && i < |fs| && DecField(fs, i, wt, s, slots).Got?
    ensures StoredMessage(fs, DecField(fs, i, wt, s, slots).value)
    decreases |s|, 1
  {
    hide DecValue, DecPacked, Substream, Store, Base, Stored, StoredMessage, ValidField, ValidInit;
    SlotOf(fs, slots, i);
    var f := fs[i];
    FieldType(f);
    if f.htype.Repeated? && wt == WT_STRING && Packable(f.ltype) {
      PackedStored(f.ltype, Substream(s).value, Items(slots[i]), f.htype.arraySize);
      ItemsStored(fs, slots, i, DecPacked(f.ltype, Substream(s).value, Items(slots[i]), f.htype.arraySize).value);
    } else {
      BaseStored(f, slots[i]);
      ValueStored(f.ltype, s, Base(f, slots[i]));
      StoreStored(fs, slots, i, DecValue(f.ltype, s, Base(f, slots[i])).value);
    }
  }

  lemma FieldType(f: Field)
    requires ValidField(f) && ValidInit(f)
    ensures ValidType(f.ltype) && (f.ltype.LSubmessage? ==> ValidInits(f.ltype.fields))
  {
  }

  lemma SlotOf(fs: seq<Field>, slots: seq<Slot>, i: nat)
    requires StoredMessage(fs, slots) && i < |fs|
    ensures |fs| == |slots| && StoredSlot(fs[i], slots[i])
  {
  }

  lemma ItemsStored(fs: seq<Field>, slots: seq<Slot>, i: nat, items: seq<Val>)
    requires StoredMessage(fs, slots) && i < |fs| && fs[i].htype.Repeated? && |items| <= fs[i].htype.arraySize
    requires forall k :: 0 <= k < |items| ==> Stored(fs[i].ltype, items[k])
    ensures StoredMessage(fs, slots[i := Rep(items)])
  {
    hide Stored;
    var r := slots[i := Rep(items)];
    forall k | 0 <= k < |fs|
      ensures StoredSlot(fs[k], r[k])
    {
      assert StoredSlot(fs[k], slots[k]);
    }
  }

  // ---------------------------------------------------------------- messages

  lemma {:induction false} LoopStored(fs: seq<Field>, s: seq<u8>, d: Dec)
    requires ValidInits(fs) && StoredMessage(fs, d.slots) && |d.slots| == |fs| && DecLoop(fs, s, d).Stop?
    ensures StoredMessage(fs, DecLoop(fs, s, d).d.slots)
    decreases |s|, 2
  {
    hide DecTag, Find, SkipField, DecField, StoredMessage, ValidInits;
    if s != [] && DecTag(s).value.Tag? {
      var tag, wt, rest := DecTag(s).value.tag, DecTag(s).value.wt, DecTag(s).rest;
      if Find(fs, tag).None? {
        LoopStored(fs, SkipField(wt, rest).rest, d);
      } else {
        var i := Find(fs, tag).value;
        FieldStored(fs, i, wt, rest, d.slots);
        var r := DecField(fs, i, wt, rest, d.slots);
        LoopStored(fs, r.rest, Dec(r.value, d.seen + {i}));
      }
    }
  }

  /** Whatever the bytes, and whatever can be stored was there before. */
  lemma {:induction false} MessageStored(fs: seq<Field>, s: seq<u8>, slots: seq<Slot>)
    requires ValidInits(fs) && StoredMessage(fs, slots) && |slots| == |fs| && DecodeNoinit(fs, s, slots).Got?
    ensures StoredMessage(fs, DecodeNoinit(fs, s, slots).value.slots)
    decreases |s|, 3
  {
    hide DecLoop, StoredMessage, RequiredMet, ValidInits;
    LoopStored(fs, s, Dec(slots, {}));
  }

  /** What can be stored has its type. */
  lemma StoredTyped(l: LType, v: Val)
    requires Stored(l, v)
    ensures Typed(l, v)
    decreases l, 0
  {
    if l.LSubmessage? {
      StoredTypedMessage(l.fields, v.slots);
    }
  }

  lemma StoredTypedSlot(f: Field, s: Slot)
    requires StoredSlot(f, s)
    ensures TypedSlot(f, s)
    decreases f, 1
  {
    hide Stored, Typed;
    match s
    case Req(v) => StoredTyped(f.ltype, v);
    case Opt(_, v) => StoredTyped(f.ltype, v);
    case Sing(v) => StoredTyped(f.ltype, v);
    case Rep(items) =>
      forall k | 0 <= k < |items|
        ensures Typed(f.ltype, items[k])
      {
        StoredTyped(f.ltype, items[k]);
      }
    case One(active) =>
      if active.Some? {
        StoredTyped(f.ltype, active.value);
      }
  }

  lemma StoredTypedMessage(fs: seq<Field>, slots: seq<Slot>)
    requires StoredMessage(fs, slots)
    ensures TypedMessage(fs, slots)
    decreases fs, 2
  {
    hide StoredSlot, TypedSlot;
    forall i | 0 <= i < |fs|
      ensures TypedSlot(fs[i], slots[i])
    {
      StoredTypedSlot(fs[i], slots[i]);
    }
  }

  /** So a message decoded from any bytes has its type and its bounds. */
  lemma DecodedTyped(fs: seq<Field>, s: seq<u8>)
    requires ValidInits(fs) && Decode(fs, s).Got?
    ensures StoredMessage(fs, Decode(fs, s).value.slots) && TypedMessage(fs, Decode(fs, s).value.slots)
  {
    hide DecodeNoinit, StoredMessage, ValidInits, TypedMessage;
    DefaultsStored(fs);
    MessageStored(fs, s, Defaults(fs));
    StoredTypedMessage(fs, Decode(fs, s).value.slots);
  }

  // ---------------------------------------------------------------- unions

  /** The member that is decoded is active and no other of its union is; a field outside the union keeps what it has. */
  lemma OnlyMember(fs: seq<Field>, i: nat, wt: nat, s: seq<u8>, slots: seq<Slot>)
    requires |fs| == |slots| && i < |fs| && fs[i].htype.Oneof? && DecField(fs, i, wt, s, slots).Got?
    ensures var r := DecField(fs, i, wt, s, slots).value;
            && r[i].One? && r[i].active.Some?
            && forall j :: 0 <= j < |fs| && j != i ==> r[j] == if fs[j].htype == fs[i].htype then One(None) else slots[j]
  {
    hide DecValue;
  }

  /** A field of another rule changes nothing but itself. */
  lemma OnlyField(fs: seq<Field>, i: nat, wt: nat, s: seq<u8>, slots: seq<Slot>)
    requires |fs| == |slots| && i < |fs| && !fs[i].htype.Oneof? && DecField(fs, i, wt, s, slots).Got?
    ensures var r := DecField(fs, i, wt, s, slots).value; r == slots[i := r[i]]
  {
    hide DecValue, DecPacked, Substream;
  }

  /**
   The last one wins: whatever was decoded before, a member of a union at the end of the input is the only active
   one, and all other fields are as they were.
   */
  lemma LastOneWins(fs: seq<Field>, s: seq<u8>, m: seq<Slot>, i: nat, v: Val)
    requires ValidFields(fs) && |m| == |fs| && i < |fs| && fs[i].htype.Oneof?
    requires DecodeNoinit(fs, s, m).Got? && !DecLoop(fs, s, Dec(m, {})).zeroTag
    requires Typed(fs[i].ltype, v) && Decodable(fs[i].ltype, v)
    requires EncTagged(fs[i], v).Some? && |EncTagged(fs[i], v).value| < TWO63
    ensures var before, r := DecodeNoinit(fs, s, m).value.slots, DecodeNoinit(fs, s + EncTagged(fs[i], v).value, m);
            && r.Got? && r.rest == [] && r.value.slots[i] == One(Some(NormValue(fs[i].ltype, v)))
            && forall j :: 0 <= j < |fs| && j != i ==>
                 r.value.slots[j] == if fs[j].htype == fs[i].htype then One(None) else before[j]
  {
    hide DecLoop, EncTagged, Typed, Decodable, NormValue, ViewValue, CanRead, AgreeType, InitValue, ValidType;
    var d, b, f := DecLoop(fs, s, Dec(m, {})).d, EncTagged(fs[i], v).value, fs[i];
    M.LoopConcat(fs, s, b, Dec(m, {}));
    FindIndex(fs, i);
    SameField(f);
    SameValue(f.ltype, v);
    TaggedKnown(fs, i, f, v, d, []);
    assert b + [] == b;
    EmptyLoop(fs, Dec(Store(fs, d.slots, i, NormValue(f.ltype, v)), d.seen + {i}));
  }

  // ---------------------------------------------------------------- behind an unset flag

  /**
   What lies behind a has-flag that is not set does matter: a nested message with two active members of one union
   there, which is no message that anyone would send, comes to light when an empty message is decoded over it.
   */
  lemma HiddenContentsShow()
    ensures var fs, m := [Field(1, LSubmessage(Pair()), Optional, None)], [Opt(false, VMsg(Both()))];
            && ValidFields(fs) && TypedMessage(fs, m) && !StoredMessage(fs, m)
            && DecodeNoinit(fs, [0x0A, 0x00], m).Got?
            && !TypedMessage(fs, DecodeNoinit(fs, [0x0A, 0x00], m).value.slots)
  {
    hide Pair, Both, DecTag, Find, DecField, TypedMessage, StoredMessage, ValidFields;
    var f := Field(1, LSubmessage(Pair()), Optional, None);
    var fs, m := [f], [Opt(false, VMsg(Both()))];
    PairAndBoth();
    OneField(f, Both());
    FirstTag();
    EmptyOver(Pair(), Both());
    var d := Dec([Opt(true, VMsg(Both()))], {0});
    assert {} + {0} == {0};
    assert DecLoop(fs, [], d) == Stop(d, false, []);
    assert DecLoop(fs, [0x0A, 0x00], Dec(m, {})) == Stop(d, false, []);
  }

  /** Two members of one union. */
  function Pair(): (sub: seq<Field>)
    ensures |sub| == 2
  {
    [Field(1, LUvarint(4), Oneof(0), None), Field(2, LUvarint(4), Oneof(0), None)]
  }

  function Both(): (slots: seq<Slot>)
    ensures |slots| == 2
  {
    [One(Some(VInt(1))), One(Some(VInt(2)))]
  }

  lemma PairAndBoth()
    ensures ValidFields(Pair()) && !TypedMessage(Pair(), Both()) && !StoredMessage(Pair(), Both())
    ensures !Pair()[0].htype.Required? && !Pair()[1].htype.Required?
  {
    assert Pair()[0].htype == Pair()[1].htype && Pair()[0].htype.Oneof?;
    assert Both()[0] != One(None) && Both()[1] != One(None);
  }

  lemma OneField(f: Field, slots: seq<Slot>)
    requires f == Field(1, LSubmessage(Pair()), Optional, None) && ValidFields(Pair())
    requires !TypedMessage(Pair(), slots) && !StoredMessage(Pair(), slots)
    ensures ValidFields([f]) && Find([f], 1) == Some(0)
    ensures TypedMessage([f], [Opt(false, VMsg(slots))]) && !StoredMessage([f], [Opt(false, VMsg(slots))])
    ensures !TypedMessage([f], [Opt(true, VMsg(slots))])
  {
    hide Pair;
    assert ValidField([f][0]);
    assert !StoredSlot([f][0], [Opt(false, VMsg(slots))][0]);
    assert !TypedSlot([f][0], [Opt(true, VMsg(slots))][0]);
  }

  lemma FirstTag()
    ensures DecTag([0x0A, 0x00]) == Got(Tag(1, 2), [0x00])
  {
    assert [0x0A, 0x00][1..] == [0x00];
  }

  /** An empty nested message leaves what it is decoded over. */
  lemma EmptyOver(sub: seq<Field>, slots: seq<Slot>)
    requires |sub| == |slots| && forall k :: 0 <= k < |sub| ==> !sub[k].htype.Required?
    ensures var fs := [Field(1, LSubmessage(sub), Optional, None)];
            DecField(fs, 0, 2, [0x00], [Opt(false, VMsg(slots))]) == Got([Opt(true, VMsg(slots))], [])
  {
    assert DecLoop(sub, [], Dec(slots, {})) == Stop(Dec(slots, {}), false, []);
    assert DecodeNoinit(sub, [], slots) == Got(Dec(slots, {}), []);
    assert Varint32([0x00]) == Got(0, []);
    assert Substream([0x00]) == Got([], []);
    assert DecValue(LSubmessage(sub), [0x00], VMsg(slots)) == Got(VMsg(slots), []);
    var m := [Opt(false, VMsg(slots))];
    assert m[0 := Opt(true, VMsg(slots))] == [Opt(true, VMsg(slots))];
  }
}
