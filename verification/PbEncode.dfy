/**
 The output stream and the two-pass encoder. A stream either writes into a buffer of limited size or, when
 it has no buffer, only counts. Every operation is proved against the encoding functions of PbModel.
 */
module PbEncode {
  import opened Prelude
  import opened PbWire
  import opened PbModel

  /** The abstract state of a stream: what it has put out and how much of its limit is used. */
  datatype OState = OState(sizing: bool, out: seq<u8>, written: nat, max: nat)

  predicate Fits(st: OState, n: nat) {
    st.sizing || st.written + n <= st.max
  }

  function Emitted(st: OState, b: seq<u8>): OState {
    if st.sizing then st.(written := st.written + |b|)
    else st.(out := st.out + b, written := st.written + |b|)
  }

  /**
   The outcome of an operation that should put out `b`: it succeeds exactly when there is something to
   put out and it fits. A failed operation never takes back output.
   */
  predicate Outcome(st: OState, b: Option<seq<u8>>, st': OState, ok: bool) {
    && (ok <==> b.Some? && Fits(st, |b.value|))
    && (ok ==> st' == Emitted(st, b.value))
    && st'.sizing == st.sizing && st.out <= st'.out
  }

  lemma EmitTwo(st: OState, a: seq<u8>, b: seq<u8>)
    ensures Fits(st, |a + b|) <==> Fits(st, |a|) && Fits(Emitted(st, a), |b|)
    ensures Emitted(Emitted(st, a), b) == Emitted(st, a + b)
  {
    assert st.out + a + b == st.out + (a + b);
  }

  lemma EmitNone(st: OState)
    requires st.sizing || st.written <= st.max
    ensures Emitted(st, []) == st && Fits(st, 0)
  {
    assert st.out + [] == st.out;
  }

  /** No encoded size overflows `size_t`. */
  predicate SizesFit(l: LType, v: Val)
    decreases l, 0
  {
    && (EncValue(l, v).Some? ==> |EncValue(l, v).value| < TWO64)
    && (l.LSubmessage? && v.VMsg? && |l.fields| == |v.slots| ==> MessageFits(l.fields, v.slots))
  }

  predicate SlotFits(f: Field, s: Slot)
    decreases f, 1
  {
    match s
    case Req(v) => SizesFit(f.ltype, v)
    case Opt(_, v) => SizesFit(f.ltype, v)
    case Sing(v) => SizesFit(f.ltype, v)
    case Rep(items) =>
      && (forall k :: 0 <= k < |items| ==> SizesFit(f.ltype, items[k]))
      && (Packable(f.ltype) && EncPacked(f.ltype, items).Some? ==> |EncPacked(f.ltype, items).value| < TWO64)
    case One(active) => active.Some? ==> SizesFit(f.ltype, active.value)
  }

  predicate MessageFits(fs: seq<Field>, slots: seq<Slot>)
    requires |fs| == |slots|
    decreases fs, 2
  {
    && (forall i :: 0 <= i < |fs| ==> fs[i].tag < TWO32 && SlotFits(fs[i], slots[i]))
    && (EncFrom(fs, slots, 0).Some? ==> |EncFrom(fs, slots, 0).value| < TWO64)
  }

  class OStream {
    const buf: array?<u8>
    var state: nat
    var maxSize: nat
    var bytesWritten: nat

    ghost predicate Valid()
      reads this
    {
      buf != null ==> bytesWritten <= maxSize && state + (maxSize - bytesWritten) <= buf.Length
    }

    ghost function State(): OState
      requires Valid()
      reads this, buf
    {
      OState(buf == null, if buf == null then [] else buf[..state], bytesWritten, maxSize)
    }

    constructor Sizing()
      ensures Valid() && buf == null
      ensures State() == OState(true, [], 0, 0)
    {
      buf := null;
      state, maxSize, bytesWritten := 0, 0, 0;
    }

    constructor FromBuffer(b: array<u8>)
      ensures Valid() && buf == b
      ensures State() == OState(false, [], 0, b.Length)
    {
      buf := b;
      state, maxSize, bytesWritten := 0, b.Length, 0;
    }

    /** A stream that goes on where `parent` is, limited to `size` bytes. */
    constructor Substream(parent: OStream, size: nat)
      requires parent.Valid() && parent.buf != null
      requires parent.bytesWritten + size <= parent.maxSize
      ensures Valid() && buf == parent.buf
      ensures State() == OState(false, parent.State().out, 0, size)
    {
      buf := parent.buf;
      state, maxSize, bytesWritten := parent.state, size, 0;
    }

    method Write(data: seq<u8>) returns (ok: bool)
      requires Valid()
      modifies this, buf
      ensures Valid() && maxSize == old(maxSize)
      ensures Outcome(old(State()), Some(data), State(), ok)
    {
      if buf != null {
        if bytesWritten + |data| > maxSize {
          return false;
        }
        var start := state;
        state := start + |data|;
        for i := 0 to |data|
          invariant state == start + |data| && bytesWritten == old(bytesWritten) && maxSize == old(maxSize)
          invariant buf[..start] == old(buf[..start])
          invariant buf[start..start + i] == data[..i]
        {
          buf[start + i] := data[i];
        }
        assert buf[..state] == old(buf[..start]) + data by {
          assert buf[..state] == buf[..start] + buf[start..state];
        }
      }
      bytesWritten := bytesWritten + |data|;
      return true;
    }

    /** Counting `n` bytes without having them: only a sizing stream is asked to. */
    method WriteNull(n: nat)
      requires Valid() && buf == null
      modifies this
      ensures Valid() && State() == old(State()).(written := old(bytesWritten) + n)
    {
      bytesWritten := bytesWritten + n;
    }

    method EncodeVarint(value: nat) returns (ok: bool)
      requires Valid() && value < TWO64
      modifies this, buf
      ensures Valid() && maxSize == old(maxSize)
      ensures Outcome(old(State()), Some(EncVarint(value)), State(), ok)
    {
      if value <= 0x7F {
        ok := Write([value]);
        return;
      }
      var groups := VarintGroups(value);
      ok := Write(groups);
    }

    method EncodeTag(wt: nat, tag: nat) returns (ok: bool)
      requires Valid() && wt < 8 && tag < TWO32
      modifies this, buf
      ensures Valid() && maxSize == old(maxSize)
      ensures Outcome(old(State()), Some(EncTag(tag, wt)), State(), ok)
    {
      ok := EncodeVarint(tag * 8 + wt);
    }

    method EncodeString(b: seq<u8>) returns (ok: bool)
      requires Valid() && |b| < TWO64
      modifies this, buf
      ensures Valid() && maxSize == old(maxSize)
      ensures Outcome(old(State()), Some(EncString(b)), State(), ok)
    {
      hide EncVarint;
      EmitTwo(State(), EncVarint(|b|), b);
      ok := EncodeVarint(|b|);
      if ok {
        ok := Write(b);
      }
    }

    method EncodeScalar(l: LType, v: Val) returns (ok: bool)
      requires Valid() && Packable(l)
      modifies this, buf
      ensures Valid() && maxSize == old(maxSize)
      ensures Outcome(old(State()), EncScalar(l, v), State(), ok)
    {
      hide EncVarint, EncFixed, ZigZag, Outcome, ToWord64;
      OutcomeNone(State());
      if !v.VInt? {
        return false;
      }
      match l
      case LVarint(n) =>
        if !ValidIntSize(n) {
          return false;
        }
        ok := EncodeVarint(ToWord64(v.i));
      case LUvarint(n) =>
        if !ValidIntSize(n) {
          return false;
        }
        ok := EncodeVarint(ToWord64(v.i));
      case LSvarint(n) =>
        if !ValidIntSize(n) {
          return false;
        }
        ok := EncodeVarint(ZigZag(v.i));
      case LFixed32 =>
        ok := Write(EncFixed(v.i % TWO32, 4));
      case LFixed64 =>
        ok := Write(EncFixed(v.i % TWO64, 8));
    }

    method EncodeValue(l: LType, v: Val) returns (ok: bool)
      requires Valid() && SizesFit(l, v)
      modifies this, buf
      ensures Valid() && maxSize == old(maxSize)
      ensures Outcome(old(State()), EncValue(l, v), State(), ok)
      decreases l, 0
    {
      hide EncVarint, EncFrom, Outcome, EncString, EncScalar, MessageFits, CString;
      OutcomeNone(State());
      if Packable(l) {
        ok := EncodeScalar(l, v);
        return;
      }
      match (l, v)
      case (LBytes(n), VBytes(b)) =>
        if |b| + BYTES_OFFSET > n {
          return false;
        }
        StringLonger(b);
        ok := EncodeString(b);
      case (LString(n), VBytes(b)) =>
        StringLonger(CString(b, n));
        ok := EncodeString(CString(b, n));
      case (LFixedBytes(n), VBytes(b)) =>
        if |b| != n {
          return false;
        }
        StringLonger(b);
        ok := EncodeString(b);
      case (LSubmessage(fs), VMsg(slots)) =>
        if |fs| != |slots| {
          return false;
        }
        ok := EncodeSubmessage(fs, slots);
      case _ =>
        return false;
    }

    /** Sizes the message with a counting stream, writes the size, and then the message in exactly that size. */
    method EncodeSubmessage(fs: seq<Field>, slots: seq<Slot>) returns (ok: bool)
      requires Valid() && |fs| == |slots| && MessageFits(fs, slots)
      modifies this, buf
      ensures Valid() && maxSize == old(maxSize)
      ensures Outcome(old(State()), StringOf(EncFrom(fs, slots, 0)), State(), ok)
      decreases fs, |fs| + 1
    {
      hide EncVarint, EncFrom, MessageFits;
      var sizer := new OStream.Sizing();
      ok := sizer.EncodeMessage(fs, slots);
      if !ok {
        return;
      }
      var size := sizer.bytesWritten;
      ghost var b := EncFrom(fs, slots, 0).value;
      EmitTwo(State(), EncVarint(|b|), b);
      MessageSize(fs, slots);
      ok := EncodeVarint(size);
      if !ok {
        return;
      }
      if buf == null {
        WriteNull(size);
        return true;
      }
      if bytesWritten + size > maxSize {
        return false;
      }
      var sub := new OStream.Substream(this, size);
      var status := sub.EncodeMessage(fs, slots);
      bytesWritten := bytesWritten + sub.bytesWritten;
      state := sub.state;
      if sub.bytesWritten != size {
        assert false;  // "submsg size changed"
        return false;
      }
      return status;
    }

    method EncodeTagged(f: Field, v: Val) returns (ok: bool)
      requires Valid() && SizesFit(f.ltype, v) && f.tag < TWO32
      modifies this, buf
      ensures Valid() && maxSize == old(maxSize)
      ensures Outcome(old(State()), PbModel.EncTagged(f, v), State(), ok)
      decreases f, 0
    {
      hide EncTag, EncValue, SizesFit;
      ghost var b := EncValue(f.ltype, v);
      if b.Some? {
        EmitTwo(State(), EncTag(f.tag, WireType(f.ltype)), b.value);
      }
      ok := EncodeTag(WireType(f.ltype), f.tag);
      if ok {
        ok := EncodeValue(f.ltype, v);
      }
    }

    /** Scalar arrays are always packed; their size is known or counted first. */
    method EncodePackedArray(f: Field, items: seq<Val>) returns (ok: bool)
      requires Valid() && Packable(f.ltype) && f.tag < TWO32
      requires EncPacked(f.ltype, items).Some? ==> |EncPacked(f.ltype, items).value| < TWO64
      modifies this, buf
      ensures Valid() && maxSize == old(maxSize)
      ensures Outcome(old(State()), PackedField(f, items), State(), ok)
    {
      hide EncTag, EncScalar, EncVarint, EncPacked;
      ghost var b := EncPacked(f.ltype, items);
      if b.Some? {
        EmitTwo(State(), EncTag(f.tag, WT_STRING), EncString(b.value));
        EmitTwo(Emitted(State(), EncTag(f.tag, WT_STRING)), EncVarint(|b.value|), b.value);
      }
      ok := EncodeTag(WT_STRING, f.tag);
      if !ok {
        return;
      }
      var size: nat;
      if f.ltype.LFixed32? || f.ltype.LFixed64? {
        size := (if f.ltype.LFixed32? then 4 else 8) * |items|;
        FixedPackedSize(f.ltype, items);
        if !AllInts(items) {
          return false;
        }
      } else {
        var sizer := new OStream.Sizing();
        ok := sizer.EncodeItemsPacked(f.ltype, items);
        if !ok {
          return;
        }
        size := sizer.bytesWritten;
      }
      ok := EncodeVarint(size);
      if !ok {
        return;
      }
      if buf == null {
        WriteNull(size);
        return true;
      }
      ok := EncodeItemsPacked(f.ltype, items);
    }

    method EncodeItemsPacked(l: LType, items: seq<Val>) returns (ok: bool)
      requires Valid() && Packable(l)
      modifies this, buf
      ensures Valid() && maxSize == old(maxSize)
      ensures Outcome(old(State()), EncPacked(l, items), State(), ok)
    {
      hide EncScalar, Outcome, Emitted, Fits, Prepend, StepOf;
      ghost var st := State();
      ghost var done: seq<u8> := [];
      EmitNone(st);
      PrependNothing(EncPacked(l, items));
      assert items[0..] == items;
      for i := 0 to |items|
        invariant Valid() && maxSize == old(maxSize)
        invariant Fits(st, |done|) && State() == Emitted(st, done)
        invariant EncPacked(l, items) == Prepend(done, EncPacked(l, items[i..]))
      {
        assert items[i..][0] == items[i] && items[i..][1..] == items[i + 1..];
        ghost var b := EncScalar(l, items[i]);
        PackedStep(st, done, l, items[i..]);
        ok := EncodeScalar(l, items[i]);
        if !ok {
          StopStep(st, done, b, EncPacked(l, items), EncPacked(l, items[i + 1..]), State());
          return;
        }
        GoStep(st, done, b, EncPacked(l, items), EncPacked(l, items[i + 1..]), State());
        done := done + b.value;
      }
      assert items[|items|..] == [];
      LastStep(st, done, EncPacked(l, items));
      return true;
    }

    method EncodeItems(f: Field, items: seq<Val>) returns (ok: bool)
      requires Valid() && f.tag < TWO32
      requires forall k :: 0 <= k < |items| ==> SizesFit(f.ltype, items[k])
      modifies this, buf
      ensures Valid() && maxSize == old(maxSize)
      ensures Outcome(old(State()), EncItems(f, items), State(), ok)
      decreases f, 1
    {
      hide PbModel.EncTagged, SizesFit, Outcome, Emitted, Fits, Prepend, StepOf;
      ghost var st := State();
      ghost var done: seq<u8> := [];
      EmitNone(st);
      PrependNothing(EncItems(f, items));
      assert items[0..] == items;
      for i := 0 to |items|
        invariant Valid() && maxSize == old(maxSize)
        invariant Fits(st, |done|) && State() == Emitted(st, done)
        invariant EncItems(f, items) == Prepend(done, EncItems(f, items[i..]))
      {
        assert items[i..][0] == items[i] && items[i..][1..] == items[i + 1..];
        ghost var b := PbModel.EncTagged(f, items[i]);
        ItemsStep(st, done, f, items[i..]);
        ok := EncodeTagged(f, items[i]);
        if !ok {
          StopStep(st, done, b, EncItems(f, items), EncItems(f, items[i + 1..]), State());
          return;
        }
        GoStep(st, done, b, EncItems(f, items), EncItems(f, items[i + 1..]), State());
        done := done + b.value;
      }
      assert items[|items|..] == [];
      LastStep(st, done, EncItems(f, items));
      return true;
    }

    method EncodeField(f: Field, s: Slot) returns (ok: bool)
      requires Valid() && SlotFits(f, s) && f.tag < TWO32
      modifies this, buf
      ensures Valid() && maxSize == old(maxSize)
      ensures Outcome(old(State()), EncField(f, s), State(), ok)
      decreases f, 2
    {
      hide PbModel.EncTagged, SizesFit, EncItems, EncPacked, IsDefaultValue, Emitted;
      EmitNone(State());
      match (f.htype, s)
      case (Required, Req(v)) =>
        ok := EncodeTagged(f, v);
      case (Optional, Opt(has, v)) =>
        if !has {
          return true;
        }
        ok := EncodeTagged(f, v);
      case (Singular, Sing(v)) =>
        if IsDefaultValue(f.ltype, v) {
          return true;
        }
        ok := EncodeTagged(f, v);
      case (Repeated(n), Rep(items)) =>
        if items == [] {
          return true;
        }
        if |items| > n {
          return false;
        }
        if Packable(f.ltype) {
          ok := EncodePackedArray(f, items);
        } else {
          ok := EncodeItems(f, items);
        }
      case (Oneof(_), One(Some(v))) =>
        ok := EncodeTagged(f, v);
      case (Oneof(_), One(None)) =>
        return true;
      case _ =>
        return false;
    }

    method EncodeMessage(fs: seq<Field>, slots: seq<Slot>) returns (ok: bool)
      requires Valid() && |fs| == |slots| && MessageFits(fs, slots)
      modifies this, buf
      ensures Valid() && maxSize == old(maxSize)
      ensures Outcome(old(State()), EncFrom(fs, slots, 0), State(), ok)
      decreases fs, |fs|
    {
      hide EncField, SlotFits, Outcome, Emitted, Fits, Prepend, StepOf;
      ghost var st := State();
      ghost var done: seq<u8> := [];
      EmitNone(st);
      PrependNothing(EncFrom(fs, slots, 0));
      for i := 0 to |fs|
        invariant Valid() && maxSize == old(maxSize)
        invariant Fits(st, |done|) && State() == Emitted(st, done)
        invariant EncFrom(fs, slots, 0) == Prepend(done, EncFrom(fs, slots, i))
      {
        ghost var b := EncField(fs[i], slots[i]);
        FieldStep(st, done, fs, slots, i);
        ok := EncodeField(fs[i], slots[i]);
        if !ok {
          StopStep(st, done, b, EncFrom(fs, slots, 0), EncFrom(fs, slots, i + 1), State());
          return;
        }
        GoStep(st, done, b, EncFrom(fs, slots, 0), EncFrom(fs, slots, i + 1), State());
        done := done + b.value;
      }
      LastStep(st, done, EncFrom(fs, slots, 0));
      return true;
    }
  }

  /** The bytes that `EncodeVarint` collects in its ten-byte buffer. */
  method VarintGroups(value: nat) returns (groups: seq<u8>)
    requires 0x7F < value < TWO64
    ensures groups == EncVarint(value)
  {
    var buffer := new u8[10];
    var v, i := value, 0;
    EncVarintLen(value);
    while v != 0
      invariant v != 0 ==> i + |EncVarint(v)| <= 10 && EncVarint(value) == buffer[..i] + EncVarint(v)
      invariant v == 0 ==> 0 < i <= 10 && buffer[i - 1] >= 128
      invariant v == 0 ==> EncVarint(value) == buffer[..i - 1] + [buffer[i - 1] - 128]
    {
      ghost var before, whole := buffer[..i], EncVarint(v);
      buffer[i] := v % 128 + 128;
      i := i + 1;
      assert buffer[..i] == before + [v % 128 + 128];
      v := v / 128;
    }
    ghost var before := buffer[..i - 1];
    buffer[i - 1] := buffer[i - 1] - 128;
    assert buffer[..i] == before + [buffer[i - 1]];
    groups := buffer[..i];
  }

  /** Writing a message into a buffer: exactly when its size fits, and then exactly its bytes. */
  method EncodeToBuffer(fs: seq<Field>, slots: seq<Slot>, b: array<u8>) returns (ok: bool, written: nat)
    requires |fs| == |slots| && MessageFits(fs, slots)
    modifies b
    ensures ok <==> Encode(fs, slots).Some? && |Encode(fs, slots).value| <= b.Length
    ensures ok ==> written <= b.Length && b[..written] == Encode(fs, slots).value
  {
    var stream := new OStream.FromBuffer(b);
    ok := stream.EncodeMessage(fs, slots);
    written := stream.bytesWritten;
    assert ok ==> [] + Encode(fs, slots).value == Encode(fs, slots).value;
  }

  /** The sizing pass alone. */
  method GetEncodedSize(fs: seq<Field>, slots: seq<Slot>) returns (ok: bool, size: nat)
    requires |fs| == |slots| && MessageFits(fs, slots)
    ensures ok <==> Encode(fs, slots).Some?
    ensures ok ==> size == |Encode(fs, slots).value|
  {
    var stream := new OStream.Sizing();
    ok := stream.EncodeMessage(fs, slots);
    size := stream.bytesWritten;
  }

  // ---------------------------------------------------------------- specification helpers

  lemma OutcomeNone(st: OState)
    ensures Outcome(st, None, st, false)
  {
  }

  function StringOf(b: Option<seq<u8>>): Option<seq<u8>> {
    match b case None => None case Some(c) => Some(EncString(c))
  }

  function Prepend(a: seq<u8>, b: Option<seq<u8>>): Option<seq<u8>> {
    match b case None => None case Some(c) => Some(a + c)
  }

  lemma PrependNothing(b: Option<seq<u8>>)
    ensures Prepend([], b) == b
  {
    if b.Some? {
      assert [] + b.value == b.value;
    }
  }

  function PackedField(f: Field, items: seq<Val>): Option<seq<u8>>
    requires Packable(f.ltype)
  {
    match EncPacked(f.ltype, items)
    case None => None
    case Some(b) => Some(EncTag(f.tag, WT_STRING) + EncString(b))
  }

  predicate AllInts(items: seq<Val>) {
    forall k :: 0 <= k < |items| ==> items[k].VInt?
  }

  lemma {:induction false} FixedPackedSize(l: LType, items: seq<Val>)
    requires l.LFixed32? || l.LFixed64?
    ensures EncPacked(l, items).Some? <==> AllInts(items)
    ensures AllInts(items) ==> |EncPacked(l, items).value| == (if l.LFixed32? then 4 else 8) * |items|
    decreases |items|
  {
    if items != [] {
      FixedPackedSize(l, items[1..]);
      assert forall k :: 0 < k < |items| ==> items[k] == items[1..][k - 1];
      assert forall k :: 0 <= k < |items| - 1 ==> items[1..][k] == items[k + 1];
    }
  }

  lemma MessageSize(fs: seq<Field>, slots: seq<Slot>)
    requires |fs| == |slots| && MessageFits(fs, slots) && EncFrom(fs, slots, 0).Some?
    ensures |EncFrom(fs, slots, 0).value| < TWO64
  {
  }

  /** One more piece of output, for a piece `b` that the rest of the output starts with. */
  predicate StepOf(st: OState, done: seq<u8>, b: Option<seq<u8>>, all: Option<seq<u8>>, rest: Option<seq<u8>>) {
    && (b.None? ==> all.None?)
    && (b.Some? ==>
          && all == Prepend(done + b.value, rest)
          && (Fits(st, |done + b.value|) <==> Fits(Emitted(st, done), |b.value|))
          && Emitted(Emitted(st, done), b.value) == Emitted(st, done + b.value)
          && (all.Some? && Fits(st, |all.value|) ==> Fits(st, |done + b.value|)))
  }

  lemma PackedStep(st: OState, done: seq<u8>, l: LType, items: seq<Val>)
    requires Packable(l) && items != [] && Fits(st, |done|)
    ensures StepOf(st, done, EncScalar(l, items[0]), Prepend(done, EncPacked(l, items)), EncPacked(l, items[1..]))
  {
    hide EncScalar;
    if EncScalar(l, items[0]).Some? {
      StepHelper(st, done, EncScalar(l, items[0]).value, EncPacked(l, items[1..]));
    }
  }

  lemma ItemsStep(st: OState, done: seq<u8>, f: Field, items: seq<Val>)
    requires items != [] && Fits(st, |done|)
    ensures StepOf(st, done, EncTagged(f, items[0]), Prepend(done, EncItems(f, items)), EncItems(f, items[1..]))
  {
    hide EncTagged;
    if EncTagged(f, items[0]).Some? {
      StepHelper(st, done, EncTagged(f, items[0]).value, EncItems(f, items[1..]));
    }
  }

  lemma FieldStep(st: OState, done: seq<u8>, fs: seq<Field>, slots: seq<Slot>, i: nat)
    requires |fs| == |slots| && i < |fs| && Fits(st, |done|)
    ensures StepOf(st, done, EncField(fs[i], slots[i]),
                   Prepend(done, EncFrom(fs, slots, i)), EncFrom(fs, slots, i + 1))
  {
    hide EncField;
    if EncField(fs[i], slots[i]).Some? {
      StepHelper(st, done, EncField(fs[i], slots[i]).value, EncFrom(fs, slots, i + 1));
    }
  }

  lemma StopStep(st: OState, done: seq<u8>, b: Option<seq<u8>>, all: Option<seq<u8>>, rest: Option<seq<u8>>, st': OState)
    requires Fits(st, |done|) && StepOf(st, done, b, all, rest) && Outcome(Emitted(st, done), b, st', false)
    ensures Outcome(st, all, st', false)
  {
  }

  lemma GoStep(st: OState, done: seq<u8>, b: Option<seq<u8>>, all: Option<seq<u8>>, rest: Option<seq<u8>>, st': OState)
    requires Fits(st, |done|) && StepOf(st, done, b, all, rest) && Outcome(Emitted(st, done), b, st', true)
    ensures b.Some? && Fits(st, |done + b.value|) && st' == Emitted(st, done + b.value)
    ensures all == Prepend(done + b.value, rest)
  {
  }

  lemma LastStep(st: OState, done: seq<u8>, all: Option<seq<u8>>)
    requires Fits(st, |done|) && all == Prepend(done, Some([]))
    ensures Outcome(st, all, Emitted(st, done), true)
  {
    assert done + [] == done;
  }

  lemma StepHelper(st: OState, done: seq<u8>, b: seq<u8>, rest: Option<seq<u8>>)
    requires Fits(st, |done|)
    ensures rest.Some? ==> done + (b + rest.value) == (done + b) + rest.value
    ensures Fits(st, |done + b|) <==> Fits(Emitted(st, done), |b|)
    ensures Emitted(Emitted(st, done), b) == Emitted(st, done + b)
  {
    EmitTwo(st, done, b);
  }
}
