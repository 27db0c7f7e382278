/**
 What the encoder writes, said without the encoder: the wire format's own terms for numbers, strings, fields and
 messages, and which fields are left out because they are zero.
 */
module PbGrammar {
  import opened Prelude
  import opened Bits
  import opened PbWire
  import opened PbModel
  import opened PbRoundTrip
  import opened PbVarint32

  // ---------------------------------------------------------------- what is left out

  /** Zero of its type: 0, no bytes, a string that starts with its NUL, or a message in which nothing is set. */
  predicate Zero(l: LType, v: Val)
    decreases l, 0
  {
    match l
    case LVarint(_) | LUvarint(_) | LSvarint(_) | LFixed32 | LFixed64 => v == VInt(0)
    case LBytes(_) => v == VBytes([])
    case LString(n) => v.VBytes? && (n == 0 || |v.b| == 0 || v.b[0] == 0)
    case LFixedBytes(n) => n == 0
    case LSubmessage(fs) => v.VMsg? && |v.slots| == |fs| && forall i :: 0 <= i < |fs| ==> Unset(fs[i], v.slots[i])
  }

  /** Not there, or zero. A required field is always there. */
  predicate Unset(f: Field, s: Slot)
    decreases f, 1
  {
    match f.htype
    case Required => false
    case Optional => s.Opt? && !s.has
    case Singular => s.Sing? && Zero(f.ltype, s.v)
    case Repeated(_) => s == Rep([])
    case Oneof(_) => s == One(None)
  }

  lemma ZeroIff(l: LType, v: Val)
    requires Typed(l, v)
    ensures IsDefaultValue(l, v) <==> Zero(l, v)
    decreases l, 0
  {
    if l.LSubmessage? {
      AllUnset(l.fields, v.slots, 0);
    }
  }

  lemma UnsetIff(f: Field, s: Slot)
    requires TypedSlot(f, s)
    ensures IsDefaultSlot(f, s) <==> Unset(f, s)
    decreases f, 1
  {
    if s.Sing? {
      ZeroIff(f.ltype, s.v);
    }
  }

  lemma {:induction false} AllUnset(fs: seq<Field>, slots: seq<Slot>, i: nat)
    requires TypedMessage(fs, slots) && |fs| == |slots| && i <= |fs|
    ensures IsDefaultFrom(fs, slots, i) <==> forall k :: i <= k < |fs| ==> Unset(fs[k], slots[k])
    decreases fs, |fs| - i
  {
    hide IsDefaultSlot, Unset, TypedSlot;
    if i < |fs| {
      UnsetIff(fs[i], slots[i]);
      AllUnset(fs, slots, i + 1);
    }
  }

  /** A field without a has-flag is left out exactly when it is zero, at every depth of it. */
  lemma NotSentIff(f: Field, v: Val)
    requires f.htype.Singular? && Typed(f.ltype, v)
    ensures EncField(f, Sing(v)) == Some([]) <==> Zero(f.ltype, v)
  {
    hide Zero, IsDefaultValue;
    ZeroIff(f.ltype, v);
  }

  /** Any field takes no bytes exactly when it is unset. */
  lemma NoBytesIff(f: Field, s: Slot)
    requires TypedSlot(f, s)
    ensures EncField(f, s) == Some([]) <==> Unset(f, s)
  {
    hide IsDefaultValue, Zero, EncTagged, Typed, EncPacked, EncTag;
    match s
    case Sing(v) =>
      ZeroIff(f.ltype, v);
      TaggedSome(f, v);
    case Req(v) => TaggedSome(f, v);
    case Opt(_, v) => TaggedSome(f, v);
    case One(active) =>
      if active.Some? {
        TaggedSome(f, active.value);
      }
    case Rep(items) =>
      if items != [] {
        TaggedSome(f, items[0]);
      }
  }

  lemma TaggedSome(f: Field, v: Val)
    ensures EncTagged(f, v) != Some([])
  {
    hide EncValue;
  }

  /** And a message takes none exactly when nothing in it is set. */
  lemma {:induction false} EmptyFrom(fs: seq<Field>, m: seq<Slot>, i: nat)
    requires TypedMessage(fs, m) && |fs| == |m| && i <= |fs|
    ensures EncFrom(fs, m, i) == Some([]) <==> forall k :: i <= k < |fs| ==> Unset(fs[k], m[k])
    decreases |fs| - i
  {
    hide EncField, Unset, TypedSlot;
    if i < |fs| {
      NoBytesIff(fs[i], m[i]);
      EmptyFrom(fs, m, i + 1);
      var b, rest := EncField(fs[i], m[i]), EncFrom(fs, m, i + 1);
      if b.Some? && rest.Some? {
        assert |b.value + rest.value| == |b.value| + |rest.value|;
        assert b.value + rest.value == [] <==> b.value == [] && rest.value == [];
      }
      assert EncFrom(fs, m, i) == Some([]) <==> b == Some([]) && rest == Some([]);
    }
  }

  // ---------------------------------------------------------------- numbers and strings

  /** Groups of seven bits, the lowest first, all but the last with the top bit set, and no group too many. */
  predicate IsVarint(b: seq<u8>, v: nat) {
    && |b| >= 1 && v < Pow2(7 * |b|) && (|b| > 1 ==> v >= Pow2(7 * (|b| - 1)))
    && forall k :: 0 <= k < |b| ==> b[k] == v / Pow2(7 * k) % 128 + (if k + 1 < |b| then 128 else 0)
  }

  /** Bytes, the lowest first. */
  predicate IsFixed(b: seq<u8>, v: nat, n: nat) {
    |b| == n && forall k :: 0 <= k < n ==> b[k] == v / Pow2(8 * k) % 256
  }

  predicate IsString(b: seq<u8>, body: seq<u8>) {
    exists n: nat :: n <= |b| && IsVarint(b[..n], |body|) && b[n..] == body
  }

  /** The string in a character array: up to its first NUL, or all of it. */
  predicate IsCString(c: seq<u8>, chars: seq<u8>, size: nat) {
    c <= chars && |c| <= size && 0 !in c && (|c| < size && |c| < |chars| ==> chars[|c|] == 0)
  }

  lemma VarintIs(v: nat)
    ensures IsVarint(EncVarint(v), v)
  {
    hide EncVarint, Pow2;
    Groups(v);
    forall k | 0 <= k < |EncVarint(v)|
      ensures EncVarint(v)[k] == v / Pow2(7 * k) % 128 + (if k + 1 < |EncVarint(v)| then 128 else 0)
    {
      EncDigit(v, k);
    }
  }

  lemma {:induction false} Groups(v: nat)
    ensures v < Pow2(7 * |EncVarint(v)|) && (|EncVarint(v)| > 1 ==> v >= Pow2(7 * (|EncVarint(v)| - 1)))
    decreases v
  {
    hide Pow2;
    PowersOfTwo();
    if v >= 128 {
      Groups(v / 128);
      var n := |EncVarint(v / 128)|;
      Pow2Sum(7, 7 * n);
      Pow2Sum(7, 7 * (n - 1));
    } else {
      assert |EncVarint(v)| == 1;
    }
  }

  lemma {:induction false} FixedByte(v: nat, n: nat, k: nat)
    requires k < n
    ensures EncFixed(v, n)[k] == v / Pow2(8 * k) % 256
    decreases k
  {
    assert Pow2(0) == 1 && Pow2(8) == 256 by {
      LowPowers();
      Pow2Sum(7, 1);
    }
    hide Pow2;
    if k > 0 {
      FixedByte(v / 256, n - 1, k - 1);
      Pow2Sum(8, 8 * (k - 1));
      DivDiv(v, 256, Pow2(8 * (k - 1)));
      assert EncFixed(v, n)[k] == EncFixed(v / 256, n - 1)[k - 1];
    }
  }

  lemma FixedIs(v: nat, n: nat)
    ensures IsFixed(EncFixed(v, n), v, n)
  {
    hide EncFixed, Pow2;
    forall k | 0 <= k < n
      ensures EncFixed(v, n)[k] == v / Pow2(8 * k) % 256
    {
      FixedByte(v, n, k);
    }
  }

  lemma StringIs(body: seq<u8>)
    ensures IsString(EncString(body), body)
  {
    hide EncVarint, IsVarint;
    VarintIs(|body|);
    var n := |EncVarint(|body|)|;
    assert EncString(body)[..n] == EncVarint(|body|) && EncString(body)[n..] == body;
  }

  // ---------------------------------------------------------------- values, fields and messages

  /** Integers: plain ones as 64-bit two's complement, signed ones alternating 0, -1, 1, -2 and so on. */
  ghost predicate IsValue(l: LType, v: Val, b: seq<u8>)
    decreases l, 0
  {
    match (l, v)
    case (LVarint(_), VInt(i)) => -TWO63 <= i && IsVarint(b, if i < 0 then i + TWO64 else i)
    case (LUvarint(_), VInt(i)) => i >= 0 && IsVarint(b, i)
    case (LSvarint(_), VInt(i)) => IsVarint(b, if i < 0 then -2 * i - 1 else 2 * i)
    case (LFixed32, VInt(i)) => i >= 0 && IsFixed(b, i, 4)
    case (LFixed64, VInt(i)) => i >= 0 && IsFixed(b, i, 8)
    case (LBytes(_), VBytes(body)) => IsString(b, body)
    case (LFixedBytes(_), VBytes(body)) => IsString(b, body)
    case (LString(n), VBytes(chars)) => exists c :: IsCString(c, chars, n) && IsString(b, c)
    case (LSubmessage(fs), VMsg(slots)) => |fs| == |slots| && exists body :: IsMessage(fs, slots, 0, body) && IsString(b, body)
    case _ => false
  }

  /** The number that stands for the kind of a value in its key. */
  function KeyKind(l: LType): nat {
    match l
    case LVarint(_) | LUvarint(_) | LSvarint(_) => 0
    case LFixed64 => 1
    case LBytes(_) | LString(_) | LFixedBytes(_) | LSubmessage(_) => 2
    case LFixed32 => 5
  }

  /** A key, which is the tag with a kind in its three low bits, and what comes behind it. */
  predicate IsKeyed(tag: nat, kind: nat, body: seq<u8>, b: seq<u8>) {
    exists n: nat :: n <= |b| && IsVarint(b[..n], 8 * tag + kind) && b[n..] == body
  }

  ghost predicate IsTagged(f: Field, v: Val, b: seq<u8>)
    decreases f, 0
  {
    exists body :: IsValue(f.ltype, v, body) && IsKeyed(f.tag, KeyKind(f.ltype), body, b)
  }

  /** Values of a packed array, one behind the other. */
  ghost predicate ArePacked(l: LType, items: seq<Val>, b: seq<u8>)
    decreases l, 1, |items|
  {
    if items == [] then b == []
    else exists n: nat :: n <= |b| && IsValue(l, items[0], b[..n]) && ArePacked(l, items[1..], b[n..])
  }

  /** Fields one behind the other. */
  ghost predicate AreTagged(f: Field, items: seq<Val>, b: seq<u8>)
    decreases f, 1, |items|
  {
    if items == [] then b == []
    else exists n: nat :: n <= |b| && IsTagged(f, items[0], b[..n]) && AreTagged(f, items[1..], b[n..])
  }

  ghost predicate IsField(f: Field, s: Slot, b: seq<u8>)
    decreases f, 2
  {
    if Unset(f, s) then b == []
    else match (f.htype, s)
      case (Required, Req(v)) => IsTagged(f, v, b)
      case (Optional, Opt(_, v)) => IsTagged(f, v, b)
      case (Singular, Sing(v)) => IsTagged(f, v, b)
      case (Oneof(_), One(Some(v))) => IsTagged(f, v, b)
      case (Repeated(max), Rep(items)) =>
        && |items| <= max
        && if KeyKind(f.ltype) == 2 then AreTagged(f, items, b)
           else exists body, lengthy :: ArePacked(f.ltype, items, body) && IsString(lengthy, body) && IsKeyed(f.tag, 2, lengthy, b)
      case _ => false
  }

  /** The fields from `i` on, in the order of the descriptor. */
  ghost predicate IsMessage(fs: seq<Field>, m: seq<Slot>, i: nat, b: seq<u8>)
    requires |fs| == |m| && i <= |fs|
    decreases fs, |fs| - i
  {
    if i == |fs| then b == []
    else exists n: nat :: n <= |b| && IsField(fs[i], m[i], b[..n]) && IsMessage(fs, m, i + 1, b[n..])
  }

  lemma ScalarIs(l: LType, v: Val)
    requires Packable(l) && ValidType(l) && Typed(l, v)
    ensures EncScalar(l, v).Some? && IsValue(l, v, EncScalar(l, v).value)
  {
    hide EncVarint, IsVarint, EncFixed, IsFixed, ZigZag;
    match l
    case LVarint(_) => VarintIs(ToWord64(v.i));
    case LUvarint(_) => VarintIs(ToWord64(v.i));
    case LSvarint(_) =>
      ZigZagRoundTrip(v.i);
      VarintIs(ZigZag(v.i));
    case LFixed32 => FixedIs(v.i, 4);
    case LFixed64 => FixedIs(v.i, 8);
  }

  lemma ValueIs(l: LType, v: Val)
    requires ValidType(l) && Typed(l, v) && EncValue(l, v).Some?
    ensures IsValue(l, v, EncValue(l, v).value)
    decreases l, 0
  {
    hide EncScalar, EncVarint, IsString, EncString, EncFrom, IsMessage;
    if Packable(l) {
      ScalarIs(l, v);
    } else {
      match l
      case LSubmessage(fs) =>
        MessageIs(fs, v.slots, 0);
        StringIs(EncFrom(fs, v.slots, 0).value);
      case LString(n) =>
        assert IsCString(CString(v.b, n), v.b, n);
        StringIs(CString(v.b, n));
      case LBytes(_) => StringIs(v.b);
      case LFixedBytes(_) => StringIs(v.b);
    }
  }

  lemma KeyedIs(tag: nat, kind: nat, body: seq<u8>)
    ensures IsKeyed(tag, kind, body, EncVarint(tag * 8 + kind) + body)
  {
    hide EncVarint, IsVarint;
    VarintIs(tag * 8 + kind);
    var b, n := EncVarint(tag * 8 + kind) + body, |EncVarint(tag * 8 + kind)|;
    assert b[..n] == EncVarint(tag * 8 + kind) && b[n..] == body;
  }

  lemma TaggedIs(f: Field, v: Val)
    requires ValidType(f.ltype) && Typed(f.ltype, v) && EncTagged(f, v).Some?
    ensures IsTagged(f, v, EncTagged(f, v).value)
    decreases f, 0
  {
    hide EncValue, IsValue, EncVarint, IsKeyed, Typed, ValidType;
    ValueIs(f.ltype, v);
    KeyedIs(f.tag, WireType(f.ltype), EncValue(f.ltype, v).value);
    assert KeyKind(f.ltype) == WireType(f.ltype);
  }

  lemma {:induction false} PackedAre(l: LType, items: seq<Val>)
    requires Packable(l) && ValidType(l) && EncPacked(l, items).Some?
    requires forall k :: 0 <= k < |items| ==> Typed(l, items[k])
    ensures ArePacked(l, items, EncPacked(l, items).value)
    decreases |items|
  {
    hide EncScalar, IsValue, Typed;
    if items != [] {
      ScalarIs(l, items[0]);
      PackedAre(l, items[1..]);
      var head, rest := EncScalar(l, items[0]).value, EncPacked(l, items[1..]).value;
      assert (head + rest)[..|head|] == head && (head + rest)[|head|..] == rest;
    }
  }

  lemma {:induction false} TaggedAre(f: Field, items: seq<Val>)
    requires ValidType(f.ltype) && EncItems(f, items).Some?
    requires forall k :: 0 <= k < |items| ==> Typed(f.ltype, items[k])
    ensures AreTagged(f, items, EncItems(f, items).value)
    decreases f, 1, |items|
  {
    hide EncTagged, IsTagged, Typed, ValidType;
    if items != [] {
      TaggedIs(f, items[0]);
      TaggedAre(f, items[1..]);
      var head, rest := EncTagged(f, items[0]).value, EncItems(f, items[1..]).value;
      assert (head + rest)[..|head|] == head && (head + rest)[|head|..] == rest;
    }
  }

  lemma FieldIs(f: Field, s: Slot)
    requires ValidField(f) && TypedSlot(f, s) && EncField(f, s).Some?
    ensures IsField(f, s, EncField(f, s).value)
    decreases f, 2
  {
    hide EncTagged, IsTagged, Typed, ValidType, Unset, EncItems, AreTagged, EncPacked, ArePacked, IsString, EncString, EncVarint,
      IsKeyed, IsDefaultValue;
    NoBytesIff(f, s);
    if !Unset(f, s) {
      match s
      case Req(v) => TaggedIs(f, v);
      case Opt(has, v) => TaggedSent(f, s); TaggedIs(f, v);
      case Sing(v) => TaggedSent(f, s); TaggedIs(f, v);
      case One(active) => TaggedSent(f, s); TaggedIs(f, active.value);
      case Rep(items) =>
        TaggedSent(f, s);
        if Packable(f.ltype) {
          PackedAre(f.ltype, items);
          var body := EncPacked(f.ltype, items).value;
          StringIs(body);
          KeyedIs(f.tag, 2, EncString(body));
        } else {
          TaggedAre(f, items);
        }
    }
  }

  lemma TaggedSent(f: Field, s: Slot)
    requires TypedSlot(f, s) && !Unset(f, s)
    ensures s.Opt? ==> s.has
    ensures s.Sing? ==> !IsDefaultValue(f.ltype, s.v)
    ensures s.One? ==> s.active.Some?
    ensures s.Rep? ==> s.items != []
  {
    hide Zero, IsDefaultValue, Typed;
    if s.Sing? {
      ZeroIff(f.ltype, s.v);
    }
  }

  /** What is encoded is the wire format of the message. */
  lemma {:induction false} MessageIs(fs: seq<Field>, m: seq<Slot>, i: nat)
    requires ValidFields(fs) && TypedMessage(fs, m) && |fs| == |m| && i <= |fs| && EncFrom(fs, m, i).Some?
    ensures IsMessage(fs, m, i, EncFrom(fs, m, i).value)
    decreases fs, |fs| - i
  {
    hide EncField, IsField, TypedSlot, ValidField;
    if i < |fs| {
      FieldIs(fs[i], m[i]);
      MessageIs(fs, m, i + 1);
      var head, rest := EncField(fs[i], m[i]).value, EncFrom(fs, m, i + 1).value;
      assert (head + rest)[..|head|] == head && (head + rest)[|head|..] == rest;
    }
  }

  // ---------------------------------------------------------------- there is only one such encoding

  /** A number has one varint: the grammar leaves the encoder no choice. */
  lemma VarintUnique(a: seq<u8>, b: seq<u8>, v: nat)
    requires IsVarint(a, v) && IsVarint(b, v)
    ensures a == b
  {
    hide Pow2;
    if |a| < |b| {
      Pow2Monotone(7 * |a|, 7 * (|b| - 1));
    } else if |b| < |a| {
      Pow2Monotone(7 * |b|, 7 * (|a| - 1));
    }
  }
}
