/**
 Which messages can be encoded, and what round trips without naming the encoder: a message within its
 field limits is encoded, and unless a string fills its array it is decoded again.
 */
module PbComplete {
  import opened Prelude
  import opened PbWire
  import opened PbModel
  import opened PbRoundTrip

  /** Bytes fit their buffers and arrays their counts, at every depth. */
  predicate Within(l: LType, v: Val)
    decreases l, 0
  {
    match (l, v)
    case (LBytes(n), VBytes(b)) => |b| + BYTES_OFFSET <= n
    case (LSubmessage(fs), VMsg(slots)) => MessageWithin(fs, slots)
    case _ => true
  }

  predicate ItemsWithin(l: LType, items: seq<Val>)
    decreases l, 1
  {
    forall k :: 0 <= k < |items| ==> Within(l, items[k])
  }

  predicate SlotWithin(f: Field, s: Slot)
    decreases f, 2
  {
    match (f.htype, s)
    case (_, Req(v)) => Within(f.ltype, v)
    case (_, Opt(has, v)) => has ==> Within(f.ltype, v)
    case (_, Sing(v)) => IsDefaultValue(f.ltype, v) || Within(f.ltype, v)
    case (Repeated(n), Rep(items)) => |items| <= n && ItemsWithin(f.ltype, items)
    case (_, One(Some(v))) => Within(f.ltype, v)
    case _ => true
  }

  predicate MessageWithin(fs: seq<Field>, slots: seq<Slot>)
    decreases fs, 3
  {
    |fs| == |slots| && forall i :: 0 <= i < |fs| ==> SlotWithin(fs[i], slots[i])
  }

  lemma {:induction false} ValueEncodes(l: LType, v: Val)
    requires ValidType(l) && Typed(l, v)
    ensures EncValue(l, v).Some? <==> Within(l, v)
    decreases l, 0
  {
    if l.LSubmessage? {
      FromEncodes(l.fields, v.slots, 0);
    }
  }

  lemma {:induction false} PackedEncodes(l: LType, items: seq<Val>)
    requires Packable(l) && ValidType(l) && forall k :: 0 <= k < |items| ==> Typed(l, items[k])
    ensures EncPacked(l, items).Some?
    decreases |items|
  {
    if items != [] {
      PackedEncodes(l, items[1..]);
    }
  }

  lemma {:induction false} ItemsEncode(f: Field, items: seq<Val>)
    requires ValidType(f.ltype) && forall k :: 0 <= k < |items| ==> Typed(f.ltype, items[k])
    ensures EncItems(f, items).Some? <==> ItemsWithin(f.ltype, items)
    decreases f, 1, |items|
  {
    if items != [] {
      ValueEncodes(f.ltype, items[0]);
      ItemsEncode(f, items[1..]);
      assert items == [items[0]] + items[1..];
    }
  }

  lemma {:induction false} FieldEncodes(f: Field, s: Slot)
    requires ValidField(f) && TypedSlot(f, s)
    ensures EncField(f, s).Some? <==> SlotWithin(f, s)
    decreases f, 2
  {
    match s {
      case Req(v) => ValueEncodes(f.ltype, v);
      case Opt(has, v) => if has { ValueEncodes(f.ltype, v); }
      case Sing(v) => ValueEncodes(f.ltype, v);
      case Rep(items) =>
        ItemsEncode(f, items);
        if Packable(f.ltype) {
          PackedEncodes(f.ltype, items);
        }
      case One(active) => if active.Some? { ValueEncodes(f.ltype, active.value); }
    }
  }

  lemma {:induction false} FromEncodes(fs: seq<Field>, slots: seq<Slot>, i: nat)
    requires ValidFields(fs) && TypedMessage(fs, slots) && |fs| == |slots| && i <= |fs|
    ensures EncFrom(fs, slots, i).Some? <==> forall k :: i <= k < |fs| ==> SlotWithin(fs[k], slots[k])
    decreases fs, |fs| - i
  {
    if i < |fs| {
      assert ValidField(fs[i]) && TypedSlot(fs[i], slots[i]);
      FieldEncodes(fs[i], slots[i]);
      FromEncodes(fs, slots, i + 1);
    }
  }

  /** The encoder refuses exactly the messages with bytes too long for their buffer or too many items. */
  lemma EncodesIff(fs: seq<Field>, m: seq<Slot>)
    requires ValidFields(fs) && TypedMessage(fs, m)
    ensures |fs| == |m|
    ensures Encode(fs, m).Some? <==> MessageWithin(fs, m)
  {
    FromEncodes(fs, m, 0);
  }

  // ---------------------------------------------------------------- strings that fill their array

  /** Every string that is sent leaves room for its NUL, at every depth. */
  predicate Terminated(l: LType, v: Val)
    decreases l, 0
  {
    match (l, v)
    case (LString(n), VBytes(b)) => |CString(b, n)| < n
    case (LSubmessage(fs), VMsg(slots)) => MessageTerminated(fs, slots)
    case _ => true
  }

  predicate SlotTerminated(f: Field, s: Slot)
    decreases f, 2
  {
    match s
    case Req(v) => Terminated(f.ltype, v)
    case Opt(has, v) => has ==> Terminated(f.ltype, v)
    case Sing(v) => IsDefaultValue(f.ltype, v) || Terminated(f.ltype, v)
    case Rep(items) => forall k :: 0 <= k < |items| ==> Terminated(f.ltype, items[k])
    case One(Some(v)) => Terminated(f.ltype, v)
    case One(None) => true
  }

  predicate MessageTerminated(fs: seq<Field>, slots: seq<Slot>)
    decreases fs, 3
  {
    |fs| == |slots| && forall i :: 0 <= i < |fs| ==> SlotTerminated(fs[i], slots[i])
  }

  /** Below four gigabytes no length prefix is refused, so only the strings matter. */
  lemma {:induction false} ShortValue(l: LType, v: Val)
    requires EncValue(l, v).Some? && |EncValue(l, v).value| < TWO32
    ensures Decodable(l, v) <==> Terminated(l, v)
    decreases l, 0
  {
    if l.LSubmessage? && v.VMsg? {
      StringLonger(EncFrom(l.fields, v.slots, 0).value);
      ShortFrom(l.fields, v.slots, 0);
    }
  }

  lemma {:induction false} ShortItems(f: Field, items: seq<Val>)
    requires EncItems(f, items).Some? && |EncItems(f, items).value| < TWO32
    ensures DecodableItems(f.ltype, items) <==> forall k :: 0 <= k < |items| ==> Terminated(f.ltype, items[k])
    decreases f, 1, |items|
  {
    if items != [] {
      ShortValue(f.ltype, items[0]);
      ShortItems(f, items[1..]);
      assert items == [items[0]] + items[1..];
    }
  }

  lemma {:induction false} ShortField(f: Field, s: Slot)
    requires EncField(f, s).Some? && |EncField(f, s).value| < TWO32
    ensures DecodableSlot(f, s) <==> SlotTerminated(f, s)
    decreases f, 2
  {
    match s {
      case Req(v) => ShortValue(f.ltype, v);
      case Opt(has, v) => if has { ShortValue(f.ltype, v); }
      case Sing(v) => if !IsDefaultValue(f.ltype, v) { ShortValue(f.ltype, v); }
      case Rep(items) => ShortRepeated(f, items);
      case One(active) => if active.Some? { ShortValue(f.ltype, active.value); }
    }
  }

  lemma ShortRepeated(f: Field, items: seq<Val>)
    requires EncField(f, Rep(items)).Some? && |EncField(f, Rep(items)).value| < TWO32
    ensures DecodableSlot(f, Rep(items)) <==> SlotTerminated(f, Rep(items))
    decreases f, 1, |items| + 1
  {
    if items == [] {
    } else if Packable(f.ltype) {
      StringLonger(EncPacked(f.ltype, items).value);
    } else {
      ShortItems(f, items);
    }
  }

  lemma {:induction false} ShortFrom(fs: seq<Field>, slots: seq<Slot>, i: nat)
    requires |fs| == |slots| && i <= |fs| && EncFrom(fs, slots, i).Some? && |EncFrom(fs, slots, i).value| < TWO32
    ensures forall k :: i <= k < |fs| ==> (DecodableSlot(fs[k], slots[k]) <==> SlotTerminated(fs[k], slots[k]))
    decreases fs, |fs| - i
  {
    if i < |fs| {
      ShortField(fs[i], slots[i]);
      ShortFrom(fs, slots, i + 1);
    }
  }

  /**
   A typed message within its limits encodes; if the bytes are fewer than four gigabytes, they decode exactly
   when no string fills its array, and then to the message, with nothing left.
   */
  lemma WholeRoundTrip(fs: seq<Field>, m: seq<Slot>)
    requires ValidFields(fs) && TypedMessage(fs, m) && MessageWithin(fs, m)
    ensures |fs| == |m| && Encode(fs, m).Some?
    ensures |Encode(fs, m).value| < TWO32 ==>
              var r := Decode(fs, Encode(fs, m).value);
              && (r.Got? <==> MessageTerminated(fs, m))
              && (r.Got? ==> r.value.slots == NormFrom(fs, m, 0) && r.rest == [])
  {
    hide Decode, NormFrom, EncField, TypedMessage, ValidFields, SlotTerminated, DecodableSlot;
    EncodesIff(fs, m);
    if |Encode(fs, m).value| < TWO32 {
      RoundTrip(fs, m);
      ShortFrom(fs, m, 0);
    }
  }

  /** What was decoded is stable: as sent, it is its own normal form. */
  predicate Normal(l: LType, v: Val)
    decreases l, 0
  {
    match (l, v)
    case (LString(n), VBytes(b)) => |b| <= n && 0 !in b
    case (LSubmessage(fs), VMsg(slots)) => MessageNormal(fs, slots)
    case _ => true
  }

  predicate SlotNormal(f: Field, s: Slot)
    decreases f, 2
  {
    match s
    case Req(v) => Normal(f.ltype, v)
    case Opt(has, v) => if has then Normal(f.ltype, v) else v == InitValue(f)
    case Sing(v) => Normal(f.ltype, v)
    case Rep(items) => forall k :: 0 <= k < |items| ==> Normal(f.ltype, items[k])
    case One(Some(v)) => Normal(f.ltype, v)
    case One(None) => true
  }

  /** Strings are without NULs, and unset fields hold their defaults. */
  predicate MessageNormal(fs: seq<Field>, slots: seq<Slot>)
    decreases fs, 3
  {
    |fs| == |slots| && forall i :: 0 <= i < |fs| ==> SlotNormal(fs[i], slots[i])
  }

  lemma {:induction false} NormalValue(l: LType, v: Val)
    requires Normal(l, v)
    ensures NormValue(l, v) == v
    decreases l, 0
  {
    match (l, v) {
      case (LString(n), VBytes(b)) => NoNul(b, n);
      case (LSubmessage(fs), VMsg(slots)) => NormalFrom(fs, slots, 0);
      case _ =>
    }
  }

  lemma {:induction false} NoNul(b: seq<u8>, n: nat)
    requires |b| <= n && 0 !in b
    ensures CString(b, n) == b
    decreases |b|
  {
    if b != [] {
      assert 0 !in b[1..];
      NoNul(b[1..], n - 1);
    }
  }

  lemma {:induction false} NormalItems(l: LType, items: seq<Val>)
    requires forall k :: 0 <= k < |items| ==> Normal(l, items[k])
    ensures NormItems(l, items) == items
    decreases l, 1, |items|
  {
    if items != [] {
      NormalValue(l, items[0]);
      NormalItems(l, items[1..]);
    }
  }

  lemma {:induction false} NormalSlot(f: Field, s: Slot)
    requires SlotNormal(f, s)
    ensures NormSlot(f, s) == s
    decreases f, 2
  {
    match s {
      case Req(v) => NormalValue(f.ltype, v);
      case Opt(has, v) => if has { NormalValue(f.ltype, v); }
      case Sing(v) => NormalValue(f.ltype, v);
      case Rep(items) => NormalItems(f.ltype, items);
      case One(active) => if active.Some? { NormalValue(f.ltype, active.value); }
    }
  }

  lemma {:induction false} NormalFrom(fs: seq<Field>, slots: seq<Slot>, i: nat)
    requires MessageNormal(fs, slots) && i <= |fs|
    ensures |fs| == |slots| && NormFrom(fs, slots, i) == slots[i..]
    decreases fs, |fs| - i
  {
    if i < |fs| {
      NormalSlot(fs[i], slots[i]);
      NormalFrom(fs, slots, i + 1);
    }
  }

  /** Round trip without any normalising: decoding gives back the very message. */
  lemma Identity(fs: seq<Field>, m: seq<Slot>)
    requires ValidFields(fs) && TypedMessage(fs, m) && MessageWithin(fs, m) && MessageTerminated(fs, m) && MessageNormal(fs, m)
    ensures |fs| == |m| && Encode(fs, m).Some?
    ensures |Encode(fs, m).value| < TWO32 ==>
              var r := Decode(fs, Encode(fs, m).value); r.Got? && r.value.slots == m && r.rest == []
  {
    hide Decode, NormFrom, EncFrom, TypedMessage, ValidFields, MessageWithin, MessageTerminated, MessageNormal;
    WholeRoundTrip(fs, m);
    NormalFrom(fs, m, 0);
  }
}
