/**
 What the decoder makes of any bytes, said without the decoder: a message is read exactly if its bytes are records,
 one behind the other, each with a key, and with contents that the field of that tag can hold or, without such a
 field, with contents of the kind that the key names.
 */
module PbRecords {
  import opened Prelude
  import opened PbWire
  import opened PbModel
  import opened PbRoundTrip
  import M = PbMerge

  // ---------------------------------------------------------------- numbers and lengths

  /** Groups of seven bits, all but the last with the top bit set. There may be more of them than the number needs. */
  predicate IsGroups(b: seq<u8>) {
    |b| >= 1 && b[|b| - 1] < 128 && forall k :: 0 <= k < |b| - 1 ==> b[k] >= 128
  }

  /** A key or a length: groups that are read as a 32-bit number. */
  predicate IsNumber(b: seq<u8>, v: nat) {
    Varint32(b) == Got(v, [])
  }

  /** A length and that many bytes. */
  predicate IsLengthy(b: seq<u8>, body: seq<u8>) {
    |body| <= |b| && IsNumber(b[..|b| - |body|], |body|) && b[|b| - |body|..] == body
  }

  lemma GroupsIff(b: seq<u8>, rest: seq<u8>)
    ensures IsGroups(b) <==> 0 < |b| == VarintLen(b + rest)
  {
    hide VarintLen;
    var s, n := b + rest, VarintLen(b + rest);
    if IsGroups(b) {
      assert s[|b| - 1] == b[|b| - 1];
      assert n != 0 && n >= |b|;
    }
    if 0 < |b| == n {
      assert forall k :: 0 <= k < |b| ==> b[k] == s[k];
    }
  }

  lemma {:induction false} LoopTaken(s: seq<u8>, bitpos: nat, result: nat)
    requires Varint32Loop(s, bitpos, result).Got?
    ensures var r := Varint32Loop(s, bitpos, result); var k := |s| - |r.rest|;
            r.rest == s[k..] && Varint32Loop(s[..k], bitpos, result) == Got(r.value, [])
  {
    var k := |s| - |Varint32Loop(s, bitpos, result).rest|;
    if s[0] >= 128 {
      var result' := Accumulate32(s[0] % 128, bitpos, result);
      LoopTaken(s[1..], (bitpos + 7) % 256, result');
      assert s[..k][1..] == s[1..][..k - 1];
    } else {
      assert s[..k] == [s[0]];
    }
  }

  lemma NumberIff(b: seq<u8>, v: nat, rest: seq<u8>)
    ensures Varint32(b + rest) == Got(v, rest) <==> IsNumber(b, v)
  {
    var s := b + rest;
    if IsNumber(b, v) {
      hide Varint32;
      Varint32Prefix(b, rest);
      assert [] + rest == rest;
    }
    if Varint32(s) == Got(v, rest) {
      assert s[..|b|] == b && s[0] == b[0];
      if s[0] >= 128 {
        LoopTaken(s[1..], 7, s[0] % 128);
        assert s[1..][..|b| - 1] == b[1..];
      }
    }
  }

  /** What is left over is the end of what there was. */
  lemma NumberTaken(s: seq<u8>)
    requires Varint32(s).Got?
    ensures var t := Varint32(s).rest; s == s[..|s| - |t|] + t
  {
    if s[0] >= 128 {
      LoopTaken(s[1..], 7, s[0] % 128);
      var t := Varint32(s).rest;
      assert s[1..][|s| - 1 - |t|..] == s[|s| - |t|..];
    }
  }

  lemma SameFront(a: seq<u8>, b: seq<u8>, rest: seq<u8>)
    requires a + rest == b + rest
    ensures a == b
  {
    assert |a| == |b|;
    assert (a + rest)[..|a|] == a && (b + rest)[..|b|] == b;
  }

  lemma LengthyRead(h: seq<u8>, body: seq<u8>, rest: seq<u8>)
    requires IsNumber(h, |body|)
    ensures Substream(h + body + rest) == Got(body, rest)
  {
    hide Varint32;
    NumberIff(h, |body|, body + rest);
    assert h + body + rest == h + (body + rest);
    assert (body + rest)[..|body|] == body && (body + rest)[|body|..] == rest;
  }

  lemma LengthyTaken(s: seq<u8>)
    requires Substream(s).Got?
    ensures var body, rest := Substream(s).value, Substream(s).rest; var k := |s| - |rest| - |body|;
            k >= 0 && IsNumber(s[..k], |body|) && s == s[..k] + body + rest
  {
    hide Varint32;
    NumberTaken(s);
    var t := Varint32(s).rest;
    var k := |s| - |t|;
    NumberIff(s[..k], Varint32(s).value, t);
    assert t == Substream(s).value + Substream(s).rest;
    assert s == s[..k] + (Substream(s).value + Substream(s).rest) == s[..k] + Substream(s).value + Substream(s).rest;
  }

  lemma LengthyIff(b: seq<u8>, body: seq<u8>, rest: seq<u8>)
    ensures Substream(b + rest) == Got(body, rest) <==> IsLengthy(b, body)
  {
    hide Substream, IsNumber;
    if IsLengthy(b, body) {
      var h := b[..|b| - |body|];
      LengthyRead(h, body, rest);
      assert h + body == b;
    }
    if Substream(b + rest) == Got(body, rest) {
      LengthyTaken(b + rest);
      var k := |b| - |body|;
      var h := (b + rest)[..k];
      SameFront(b, h + body, rest);
      assert b[..k] == h && b[k..] == body;
    }
  }

  // ---------------------------------------------------------------- values

  /** The range of a signed integer of `n` bytes. */
  predicate InSigned(i: int, n: nat) {
    0 - Pow256(n) <= 2 * i < Pow256(n)
  }

  /**
   Contents for a scalar. Of a varint only the low 64 bits count and, for a signed integer of less than eight bytes,
   only the low 32; what is left has to be in the range of the storage.
   */
  predicate IsScalar(l: LType, b: seq<u8>, i: int) {
    match l
    case LVarint(n) =>
      && IsGroups(b) && |b| <= 10 && InSigned(i, n)
      && if n == 8 then i % 0x1_0000_0000_0000_0000 == Payload(b) % 0x1_0000_0000_0000_0000
         else i % 0x1_0000_0000 == Payload(b) % 0x1_0000_0000
    case LUvarint(n) => IsGroups(b) && |b| <= 10 && 0 <= i < Pow256(n) && i == Payload(b) % 0x1_0000_0000_0000_0000
    case LSvarint(n) =>
      && IsGroups(b) && |b| <= 10 && InSigned(i, n)
      && (if i >= 0 then 2 * i else -2 * i - 1) == Payload(b) % 0x1_0000_0000_0000_0000
    case LFixed32 => |b| == 4 && i == LittleEndian(b)
    case LFixed64 => |b| == 8 && i == LittleEndian(b)
    case _ => false
  }

  lemma Ranges(i: int, n: nat)
    requires ValidIntSize(n)
    ensures InSigned(i, n) <==> FitsSigned(i, n)
    ensures 0 <= i < Pow256(n) <==> FitsUnsigned(i, n)
  {
    assert Pow256(1) == 0x100 && Pow256(2) == 0x1_0000;
    assert Pow256(4) == 0x1_0000_0000;
    assert Pow256(8) == 0x1_0000_0000 * Pow256(4);
  }

  lemma Reduced64(i: int, w: nat)
    requires -TWO63 <= i < TWO63 && w < TWO64
    ensures i % TWO64 == w <==> i == ToSigned64(w)
  {
    assert i % TWO64 == if i < 0 then i + TWO64 else i;
  }

  lemma Reduced32(i: int, p: nat)
    requires -TWO31 <= i < TWO31
    ensures i % TWO32 == p % TWO32 <==> i == ToSigned32(p % TWO64)
  {
    assert i % TWO32 == if i < 0 then i + TWO32 else i;
    assert p % TWO64 % TWO32 == p % TWO32;
  }

  lemma UnZigZagged(i: int, w: nat)
    requires w < TWO64
    ensures (if i >= 0 then 2 * i else -2 * i - 1) == w <==> i == UnZigZag(w)
  {
    assert UnZigZag(w) == if w % 2 == 1 then -1 - w / 2 else w / 2;
  }

  lemma GroupsRead(b: seq<u8>, rest: seq<u8>)
    ensures IsGroups(b) && |b| <= 10 ==> Varint64(b + rest) == Got(Payload(b) % TWO64, rest)
    ensures Varint64(b + rest).Got? && Varint64(b + rest).rest == rest ==> IsGroups(b) && |b| <= 10
  {
    hide VarintLen, Payload;
    GroupsIff(b, rest);
    var n := VarintLen(b + rest);
    assert n == |b| ==> (b + rest)[..n] == b && (b + rest)[n..] == rest;
  }

  lemma VarintScalarIff(l: LType, b: seq<u8>, i: int, rest: seq<u8>)
    requires (l.LVarint? || l.LUvarint? || l.LSvarint?) && ValidType(l)
    ensures DecScalar(l, b + rest) == Got(VInt(i), rest) <==> IsScalar(l, b, i)
  {
    hide Varint64, Payload, UnZigZag, ToSigned64, ToSigned32, Pow256, InSigned, FitsSigned, FitsUnsigned, IsGroups;
    GroupsRead(b, rest);
    Ranges(i, l.dataSize);
    SmallRanges(i, l.dataSize);
    UnZigZagged(i, Payload(b) % TWO64);
    if FitsSigned(i, l.dataSize) {
      Reduced64(i, Payload(b) % TWO64);
      if l.dataSize < 8 {
        Reduced32(i, Payload(b));
      }
    }
  }

  lemma SmallRanges(i: int, n: nat)
    requires ValidIntSize(n)
    ensures FitsSigned(i, n) ==> -TWO63 <= i < TWO63 && (n < 8 ==> -TWO31 <= i < TWO31)
  {
  }

  lemma ScalarIff(l: LType, b: seq<u8>, i: int, rest: seq<u8>)
    requires Packable(l) && ValidType(l)
    ensures DecScalar(l, b + rest) == Got(VInt(i), rest) <==> IsScalar(l, b, i)
  {
    hide LittleEndian;
    match l
    case LFixed32 => assert |b| == 4 ==> (b + rest)[..4] == b && (b + rest)[4..] == rest;
    case LFixed64 => assert |b| == 8 ==> (b + rest)[..8] == b && (b + rest)[8..] == rest;
    case _ => VarintScalarIff(l, b, i, rest);
  }

  /** The values of a packed array, one behind the other. */
  ghost predicate ArePackedIn(l: LType, b: seq<u8>, items: seq<Val>)
    decreases |b|
  {
    if b == [] then items == []
    else
      && items != [] && items[0].VInt?
      && exists n: nat :: 0 < n <= |b| && IsScalar(l, b[..n], items[0].i) && ArePackedIn(l, b[n..], items[1..])
  }

  /** The required fields before entry `i`. */
  function RequiredSoFar(fs: seq<Field>, i: nat): set<nat>
    requires i <= |fs|
  {
    set j: nat | j < i && fs[j].htype.Required?
  }

  /** Of the required fields the first 64 have been met. */
  predicate RequiredSeen(fs: seq<Field>, seen: set<nat>) {
    forall i :: 0 <= i < |fs| && fs[i].htype.Required? && |RequiredSoFar(fs, i)| < 64 ==> i in seen
  }

  /** A single item is put in its place, and takes the union from the other members. An array gets one item more. */
  predicate Puts(fs: seq<Field>, m: seq<Slot>, i: nat, v: Val, m': seq<Slot>)
    requires |fs| == |m| && i < |fs|
  {
    && |m'| == |m|
    && (match fs[i].htype
        case Required => m'[i] == Req(v)
        case Optional => m'[i] == Opt(true, v)
        case Singular => m'[i] == Sing(v)
        case Repeated(_) => m'[i] == Rep((if m[i].Rep? then m[i].items else []) + [v])
        case Oneof(_) => m'[i] == One(Some(v)))
    && forall j :: 0 <= j < |m| && j != i ==> m'[j] == if fs[j].htype.Oneof? && fs[j].htype == fs[i].htype then One(None) else m[j]
  }

  /** What a nested message is decoded over: what is there, but in an array or a union its defaults. */
  function Under(f: Field, s: Slot): Val {
    if f.htype.Required? && s.Req? then s.v
    else if f.htype.Optional? && s.Opt? then s.v
    else if f.htype.Singular? && s.Sing? then s.v
    else InitValue(f)
  }

  // ---------------------------------------------------------------- values, fields and messages

  /** Contents that a value can have, at every depth. Fixed-length bytes may be given as no bytes, for all zeros. */
  ghost predicate IsIn(l: LType, base: Val, b: seq<u8>, v: Val)
    decreases |b|, 0
  {
    match l
    case LBytes(n) => v.VBytes? && IsLengthy(b, v.b) && |v.b| + 4 <= n
    case LString(n) => v.VBytes? && IsLengthy(b, v.b) && |v.b| + 1 <= n
    case LFixedBytes(n) =>
      && v.VBytes? && |v.b| == n
      && (IsLengthy(b, v.b) || (IsLengthy(b, []) && forall k :: 0 <= k < n ==> v.b[k] == 0))
    case LSubmessage(fs) =>
      && v.VMsg? && base.VMsg? && |base.slots| == |fs|
      && exists n: nat :: 0 < n <= |b| && IsLengthy(b, b[n..]) && IsDecoded(fs, b[n..], base.slots, v.slots)
    case _ => v.VInt? && IsScalar(l, b, v.i)
  }

  /** A record for field `i` turns the message `m` into `m'`. Only an array of scalars looks at the kind in the key. */
  ghost predicate IsTaken(fs: seq<Field>, i: nat, kind: nat, m: seq<Slot>, b: seq<u8>, m': seq<Slot>)
    requires |fs| == |m| && i < |fs|
    decreases |b|, 1
  {
    var f := fs[i];
    var had := if m[i].Rep? then m[i].items else [];
    if f.htype.Repeated? && kind == 2 && Packable(f.ltype) then
      && |m'| == |m| && m' == m[i := m'[i]] && m'[i].Rep? && had <= m'[i].items
      && (m'[i].items == had || |m'[i].items| <= f.htype.arraySize)
      && exists n: nat :: 0 < n <= |b| && IsLengthy(b, b[n..]) && ArePackedIn(f.ltype, b[n..], m'[i].items[|had|..])
    else
      && (f.htype.Repeated? ==> |had| < f.htype.arraySize)
      && exists v :: IsIn(f.ltype, Under(f, m[i]), b, v) && Puts(fs, m, i, v, m')
  }

  /** Contents of the kind that a key names. */
  predicate IsOfKind(kind: nat, b: seq<u8>) {
    match kind
    case 0 => IsGroups(b)
    case 1 => |b| == 8
    case 2 => exists n: nat :: 0 < n <= |b| && IsLengthy(b, b[n..])
    case 5 => |b| == 4
    case _ => false
  }

  predicate IsFirst(fs: seq<Field>, tag: nat, i: nat) {
    i < |fs| && fs[i].tag == tag && forall j :: 0 <= j < i ==> fs[j].tag != tag
  }

  /**
   The bytes are records up to their end, or up to a key that is zero, and turn one state of the message into the
   other. A record without a field of its tag changes nothing; an empty descriptor takes tag zero for its end mark,
   and that is an error.
   */
  ghost predicate AreRecords(fs: seq<Field>, s: seq<u8>, d: Dec, l: Loop)
    requires |d.slots| == |fs|
    decreases |s|, 2
  {
    if s == [] then l == Stop(d, false, [])
    else exists k: nat, key: nat :: 0 < k <= |s| && IsNumber(s[..k], key) && AfterKey(fs, key, s[k..], d, l)
  }

  ghost predicate AfterKey(fs: seq<Field>, key: nat, t: seq<u8>, d: Dec, l: Loop)
    requires |d.slots| == |fs|
    decreases |t|, 4
  {
    if key == 0 then l == Stop(d, true, t)
    else if forall j :: 0 <= j < |fs| ==> fs[j].tag != key / 8 then
      && (fs == [] ==> key / 8 != 0)
      && exists n: nat :: n <= |t| && IsOfKind(key % 8, t[..n]) && AreRecords(fs, t[n..], d, l)
    else
      exists i: nat, n: nat, m :: IsFirst(fs, key / 8, i) && n <= |t| && IsTaken(fs, i, key % 8, d.slots, t[..n], m)
                                  && |m| == |fs| && AreRecords(fs, t[n..], Dec(m, d.seen + {i}), l)
  }

  /** The end that the records come to: the required fields have been met, and the message is there. */
  predicate IsEnd(fs: seq<Field>, l: Loop, m': seq<Slot>) {
    l.Stop? && RequiredSeen(fs, l.d.seen) && l.d.slots == m'
  }

  ghost predicate IsDecoded(fs: seq<Field>, s: seq<u8>, m: seq<Slot>, m': seq<Slot>)
    requires |m| == |fs|
    decreases |s|, 3
  {
    exists l :: IsEnd(fs, l, m') && AreRecords(fs, s, Dec(m, {}), l)
  }

  // ---------------------------------------------------------------- what is read is a front of what there is

  lemma ScalarTaken(l: LType, s: seq<u8>)
    requires Packable(l) && DecScalar(l, s).Got?
    ensures var r := DecScalar(l, s); r.value.VInt? && s == s[..|s| - |r.rest|] + r.rest
  {
    hide VarintLen, Payload, LittleEndian;
  }

  lemma SubstreamTaken(s: seq<u8>)
    requires Substream(s).Got?
    ensures var rest := Substream(s).rest; s == s[..|s| - |rest|] + rest
  {
    hide Substream, IsNumber;
    LengthyTaken(s);
  }

  /** Bytes of some length, and what stands for them. */
  lemma BytesIff(s: seq<u8>, size: nat)
    ensures Varint32(s).Got? && Varint32(s).value == size && |Varint32(s).rest| >= size
       <==> Substream(s).Got? && |Substream(s).value| == size
    ensures Substream(s).Got? ==> Substream(s).value == Varint32(s).rest[..|Substream(s).value|]
    ensures Substream(s).Got? ==> Substream(s).rest == Varint32(s).rest[|Substream(s).value|..]
  {
    hide Varint32;
  }

  lemma BytesAre(l: LType, s: seq<u8>, base: Val)
    requires (l.LBytes? || l.LString?) && ValidType(l)
    ensures DecValue(l, s, base)
         == match Substream(s)
            case Fail => Fail
            case Got(body, rest) => if |body| + (if l.LBytes? then 4 else 1) > l.dataSize then Fail else Got(VBytes(body), rest)
  {
    hide Varint32;
  }

  lemma FixedBytesAre(n: nat, s: seq<u8>, base: Val)
    requires n <= PB_SIZE_MAX
    ensures DecValue(LFixedBytes(n), s, base)
         == match Substream(s)
            case Fail => Fail
            case Got(body, rest) =>
              if body == [] then Got(VBytes(Zeros(n)), rest) else if |body| != n then Fail else Got(VBytes(body), rest)
  {
    hide Varint32, Zeros;
  }

  lemma ValueTaken(l: LType, s: seq<u8>, base: Val)
    requires ValidType(l) && DecValue(l, s, base).Got?
    ensures var rest := DecValue(l, s, base).rest; s == s[..|s| - |rest|] + rest
  {
    hide Substream, DecScalar, DecodeNoinit, ValidFields;
    if Packable(l) {
      ScalarTaken(l, s);
    } else {
      match l
      case LSubmessage(_) => SubstreamTaken(s);
      case LFixedBytes(n) =>
        FixedBytesAre(n, s, base);
        SubstreamTaken(s);
      case _ =>
        BytesAre(l, s, base);
        SubstreamTaken(s);
    }
  }

  lemma SkipTaken(kind: nat, s: seq<u8>)
    requires SkipField(kind, s).Got?
    ensures var rest := SkipField(kind, s).rest; s == s[..|s| - |rest|] + rest
  {
    hide Varint32, VarintLen;
    if kind == 2 {
      NumberTaken(s);
      BytesIff(s, Varint32(s).value);
      SubstreamTaken(s);
    }
  }

  lemma FieldTaken(fs: seq<Field>, i: nat, kind: nat, s: seq<u8>, m: seq<Slot>)
    requires |fs| == |m| && i < |fs| && ValidType(fs[i].ltype) && DecField(fs, i, kind, s, m).Got?
    ensures var rest := DecField(fs, i, kind, s, m).rest; s == s[..|s| - |rest|] + rest
  {
    hide DecValue, DecPacked, Substream, ValidType, Store;
    if fs[i].htype.Repeated? && kind == 2 && Packable(fs[i].ltype) {
      SubstreamTaken(s);
    } else {
      ValueTaken(fs[i].ltype, s, Base(fs[i], m[i]));
    }
  }

  // ---------------------------------------------------------------- skipping, arrays, storing

  lemma SkipIff(kind: nat, b: seq<u8>, rest: seq<u8>)
    ensures SkipField(kind, b + rest) == Got((), rest) <==> IsOfKind(kind, b)
  {
    hide Varint32, VarintLen, IsLengthy, IsGroups, Substream;
    var s := b + rest;
    assert |b| == 8 ==> s[8..] == rest;
    assert |b| == 4 ==> s[4..] == rest;
    if kind == 0 {
      GroupsIff(b, rest);
      assert VarintLen(s) == |b| ==> s[VarintLen(s)..] == rest;
    } else if kind == 2 {
      SkipIsSubstream(s);
      if SkipField(2, s) == Got((), rest) {
        LengthyIff(b, Substream(s).value, rest);
        LengthyEnd(b, Substream(s).value);
      }
      if IsOfKind(2, b) {
        var n: nat :| 0 < n <= |b| && IsLengthy(b, b[n..]);
        LengthyIff(b, b[n..], rest);
      }
    }
  }

  lemma LengthyEnd(b: seq<u8>, body: seq<u8>)
    requires IsLengthy(b, body)
    ensures var n := |b| - |body|; 0 < n <= |b| && b[n..] == body && IsLengthy(b, b[n..])
  {
    hide Varint32Loop;
  }

  lemma {:induction false} PackedIff(l: LType, b: seq<u8>, had: seq<Val>, items: seq<Val>, max: nat)
    requires Packable(l) && ValidType(l)
    ensures DecPacked(l, b, had, max) == Some(had + items)
       <==> ArePackedIn(l, b, items) && (items == [] || |had| + |items| <= max)
    decreases |b|, 1
  {
    hide DecScalar, IsScalar, DecPacked, ArePackedIn;
    if DecPacked(l, b, had, max) == Some(had + items) {
      PackedDecoded(l, b, had, items, max);
    }
    if ArePackedIn(l, b, items) && (items == [] || |had| + |items| <= max) {
      PackedRead(l, b, had, items, max);
    }
  }

  lemma {:induction false} PackedDecoded(l: LType, b: seq<u8>, had: seq<Val>, items: seq<Val>, max: nat)
    requires Packable(l) && ValidType(l) && DecPacked(l, b, had, max) == Some(had + items)
    ensures ArePackedIn(l, b, items) && (items == [] || |had| + |items| <= max)
    decreases |b|, 0
  {
    hide DecScalar, IsScalar;
    if b == [] {
      assert |had + items| == |had|;
    } else {
      var v, rest := DecScalar(l, b).value, DecScalar(l, b).rest;
      ScalarTaken(l, b);
      var n := |b| - |rest|;
      ScalarIff(l, b[..n], v.i, rest);
      PackedGrows(l, rest, had + [v], max);
      assert (had + items)[|had|] == v && items[0] == v;
      assert had + items == (had + [v]) + items[1..];
      PackedIff(l, rest, had + [v], items[1..], max);
      assert b[n..] == rest;
    }
  }

  lemma {:induction false} PackedRead(l: LType, b: seq<u8>, had: seq<Val>, items: seq<Val>, max: nat)
    requires Packable(l) && ValidType(l) && ArePackedIn(l, b, items) && (items == [] || |had| + |items| <= max)
    ensures DecPacked(l, b, had, max) == Some(had + items)
    decreases |b|, 0
  {
    hide DecScalar, IsScalar;
    if b == [] {
      assert had + [] == had;
    } else {
      var n: nat :| 0 < n <= |b| && IsScalar(l, b[..n], items[0].i) && ArePackedIn(l, b[n..], items[1..]);
      assert b == b[..n] + b[n..];
      ScalarIff(l, b[..n], items[0].i, b[n..]);
      PackedIff(l, b[n..], had + [items[0]], items[1..], max);
      assert had + items == (had + [items[0]]) + items[1..];
    }
  }

  lemma {:induction false} PackedGrows(l: LType, b: seq<u8>, had: seq<Val>, max: nat)
    requires Packable(l) && DecPacked(l, b, had, max).Some?
    ensures had <= DecPacked(l, b, had, max).value
    decreases |b|
  {
    hide DecScalar;
    if b != [] {
      PackedGrows(l, DecScalar(l, b).rest, had + [DecScalar(l, b).value], max);
    }
  }

  lemma StoreIff(fs: seq<Field>, m: seq<Slot>, i: nat, v: Val, m': seq<Slot>)
    requires |fs| == |m| && i < |fs|
    ensures m' == Store(fs, m, i, v) <==> Puts(fs, m, i, v, m')
    ensures Base(fs[i], m[i]) == Under(fs[i], m[i])
  {
    hide InitValue;
    if Puts(fs, m, i, v, m') {
      assert forall j :: 0 <= j < |m| ==> m'[j] == Store(fs, m, i, v)[j];
    }
  }

  lemma RequiredCounted(fs: seq<Field>, i: nat)
    requires i <= |fs|
    ensures |RequiredSoFar(fs, i)| == RequiredBefore(fs, i)
  {
    if i == 0 {
      assert RequiredSoFar(fs, 0) == {};
    } else {
      RequiredCounted(fs, i - 1);
      if fs[i - 1].htype.Required? {
        assert RequiredSoFar(fs, i) == RequiredSoFar(fs, i - 1) + {i - 1};
      } else {
        assert RequiredSoFar(fs, i) == RequiredSoFar(fs, i - 1);
      }
    }
  }

  lemma RequiredIff(fs: seq<Field>, seen: set<nat>)
    ensures RequiredMet(fs, seen) <==> RequiredSeen(fs, seen)
  {
    forall i | 0 <= i < |fs|
      ensures |RequiredSoFar(fs, i)| == RequiredBefore(fs, i)
    {
      RequiredCounted(fs, i);
    }
  }

  // ---------------------------------------------------------------- decoding is that and nothing else

  lemma BytesValueIff(l: LType, base: Val, b: seq<u8>, v: Val, rest: seq<u8>)
    requires (l.LBytes? || l.LString? || l.LFixedBytes?) && ValidType(l)
    ensures DecValue(l, b + rest, base) == Got(v, rest) <==> IsIn(l, base, b, v)
  {
    hide DecValue, Substream, IsLengthy, DecodeNoinit;
    var s := b + rest;
    if l.LFixedBytes? {
      FixedBytesAre(l.dataSize, s, base);
      LengthyIff(b, [], rest);
      if v.VBytes? {
        AllZeros(v.b, l.dataSize);
      }
    } else {
      BytesAre(l, s, base);
    }
    if v.VBytes? {
      LengthyIff(b, v.b, rest);
    }
    assert Substream(s).Got? ==> (Substream(s).rest == rest <==> Substream(s) == Got(Substream(s).value, rest));
  }

  lemma AllZeros(b: seq<u8>, n: nat)
    ensures b == Zeros(n) <==> |b| == n && forall k :: 0 <= k < n ==> b[k] == 0
  {
  }

  lemma {:induction false} ValueIff(l: LType, base: Val, b: seq<u8>, v: Val, rest: seq<u8>)
    requires ValidType(l)
    ensures DecValue(l, b + rest, base) == Got(v, rest) <==> IsIn(l, base, b, v)
    decreases |b|, 1
  {
    hide DecScalar, IsScalar, DecodeNoinit, IsDecoded, Substream, IsLengthy, ValidFields;
    var s := b + rest;
    if Packable(l) {
      if DecScalar(l, s).Got? {
        ScalarTaken(l, s);
      }
      if v.VInt? {
        ScalarIff(l, b, v.i, rest);
      }
    } else if l.LSubmessage? {
      NestedIff(l.fields, base, b, v, rest);
    } else {
      BytesValueIff(l, base, b, v, rest);
    }
  }

  lemma {:induction false} NestedIff(fs: seq<Field>, base: Val, b: seq<u8>, v: Val, rest: seq<u8>)
    requires ValidFields(fs)
    ensures DecValue(LSubmessage(fs), b + rest, base) == Got(v, rest) <==> IsIn(LSubmessage(fs), base, b, v)
    decreases |b|, 0
  {
    hide DecodeNoinit, IsDecoded, Substream, IsLengthy, ValidFields;
    var s := b + rest;
    if DecValue(LSubmessage(fs), s, base) == Got(v, rest) {
      var body := Substream(s).value;
      LengthyIff(b, body, rest);
      LengthyEnd(b, body);
      DecodedIff(fs, body, base.slots, v.slots);
    }
    if IsIn(LSubmessage(fs), base, b, v) {
      var n: nat :| 0 < n <= |b| && IsLengthy(b, b[n..]) && IsDecoded(fs, b[n..], base.slots, v.slots);
      LengthyIff(b, b[n..], rest);
      DecodedIff(fs, b[n..], base.slots, v.slots);
    }
  }

  lemma {:induction false} TakenIff(fs: seq<Field>, i: nat, kind: nat, m: seq<Slot>, b: seq<u8>, m': seq<Slot>, rest: seq<u8>)
    requires |fs| == |m| && i < |fs| && ValidFields(fs)
    ensures DecField(fs, i, kind, b + rest, m) == Got(m', rest) <==> IsTaken(fs, i, kind, m, b, m')
    decreases |b|, 3
  {
    hide DecValue, IsIn, DecPacked, ArePackedIn, Substream, IsLengthy, ValidFields, Store, Puts, Base, Under;
    var f, s := fs[i], b + rest;
    assert ValidType(f.ltype) by {
      FieldType(fs, i);
    }
    if f.htype.Repeated? && kind == 2 && Packable(f.ltype) {
      PackedTakenIff(fs, i, m, b, m', rest);
    } else {
      SingleTaken(fs, i, kind, m, b, m', rest);
    }
  }

  lemma FieldType(fs: seq<Field>, i: nat)
    requires ValidFields(fs) && i < |fs|
    ensures ValidType(fs[i].ltype)
  {
  }

  lemma PackedTakenIff(fs: seq<Field>, i: nat, m: seq<Slot>, b: seq<u8>, m': seq<Slot>, rest: seq<u8>)
    requires |fs| == |m| && i < |fs| && ValidType(fs[i].ltype) && fs[i].htype.Repeated? && Packable(fs[i].ltype)
    ensures DecField(fs, i, 2, b + rest, m) == Got(m', rest) <==> IsTaken(fs, i, 2, m, b, m')
  {
    hide DecValue, IsIn, DecPacked, ArePackedIn, Substream, IsLengthy, ValidType;
    var f, s, had := fs[i], b + rest, Items(m[i]);
    if DecField(fs, i, 2, s, m) == Got(m', rest) {
      var body := Substream(s).value;
      LengthyIff(b, body, rest);
      LengthyEnd(b, body);
      PackedGrows(f.ltype, body, had, f.htype.arraySize);
      var items := m'[i].items;
      assert items == had + items[|had|..];
      PackedIff(f.ltype, body, had, items[|had|..], f.htype.arraySize);
    }
    if IsTaken(fs, i, 2, m, b, m') {
      var items := m'[i].items;
      var n: nat :| 0 < n <= |b| && IsLengthy(b, b[n..]) && ArePackedIn(f.ltype, b[n..], items[|had|..]);
      LengthyIff(b, b[n..], rest);
      assert items == had + items[|had|..];
      PackedIff(f.ltype, b[n..], had, items[|had|..], f.htype.arraySize);
    }
  }

  lemma {:induction false} SingleTaken(fs: seq<Field>, i: nat, kind: nat, m: seq<Slot>, b: seq<u8>, m': seq<Slot>, rest: seq<u8>)
    requires |fs| == |m| && i < |fs| && ValidType(fs[i].ltype)
    requires !(fs[i].htype.Repeated? && kind == 2 && Packable(fs[i].ltype))
    ensures DecField(fs, i, kind, b + rest, m) == Got(m', rest) <==> IsTaken(fs, i, kind, m, b, m')
    decreases |b|, 2
  {
    hide DecValue, IsIn, DecPacked, ArePackedIn, Substream, IsLengthy, ValidType, Store, Puts, Base, Under;
    var f, s := fs[i], b + rest;
    var base := Under(f, m[i]);
    if DecField(fs, i, kind, s, m) == Got(m', rest) {
      var v := DecValue(f.ltype, s, Base(f, m[i])).value;
      StoreIff(fs, m, i, v, m');
      ValueIff(f.ltype, base, b, v, rest);
    }
    if IsTaken(fs, i, kind, m, b, m') {
      var v :| IsIn(f.ltype, base, b, v) && Puts(fs, m, i, v, m');
      StoreIff(fs, m, i, v, m');
      ValueIff(f.ltype, base, b, v, rest);
    }
  }

  /** What the decoder does behind a key. */
  function Follow(fs: seq<Field>, key: nat, t: seq<u8>, d: Dec): Loop
    requires |d.slots| == |fs|
  {
    if key == 0 then Stop(d, true, t)
    else if fs == [] && key / 8 == 0 then Error
    else match Find(fs, key / 8)
      case None => (match SkipField(key % 8, t) case Fail => Error case Got(_, t') => DecLoop(fs, t', d))
      case Some(i) =>
        (match DecField(fs, i, key % 8, t, d.slots) case Fail => Error case Got(m, t') => DecLoop(fs, t', Dec(m, d.seen + {i})))
  }

  lemma FollowIs(fs: seq<Field>, s: seq<u8>, d: Dec)
    requires |d.slots| == |fs| && s != []
    ensures DecLoop(fs, s, d) == match Varint32(s) case Fail => Error case Got(key, t) => Follow(fs, key, t, d)
  {
    hide Varint32, Find, SkipField, DecField;
  }

  lemma {:induction false} RecordsIff(fs: seq<Field>, s: seq<u8>, d: Dec, l: Loop)
    requires |d.slots| == |fs| && ValidFields(fs)
    ensures DecLoop(fs, s, d) == l && l.Stop? <==> AreRecords(fs, s, d, l)
    decreases |s|, 4
  {
    hide Varint32, Follow, AfterKey, ValidFields;
    if s != [] {
      FollowIs(fs, s, d);
      if DecLoop(fs, s, d) == l && l.Stop? {
        hide DecLoop;
        var key, t := Varint32(s).value, Varint32(s).rest;
        NumberTaken(s);
        var k := |s| - |t|;
        NumberIff(s[..k], key, t);
        AfterKeyIff(fs, key, t, d, l);
        assert s[k..] == t;
      }
      if AreRecords(fs, s, d, l) {
        hide DecLoop;
        var k: nat, key: nat :| 0 < k <= |s| && IsNumber(s[..k], key) && AfterKey(fs, key, s[k..], d, l);
        assert s == s[..k] + s[k..];
        NumberIff(s[..k], key, s[k..]);
        AfterKeyIff(fs, key, s[k..], d, l);
      }
    }
  }

  lemma {:induction false} AfterKeyIff(fs: seq<Field>, key: nat, t: seq<u8>, d: Dec, l: Loop)
    requires |d.slots| == |fs| && ValidFields(fs)
    ensures Follow(fs, key, t, d) == l && l.Stop? <==> AfterKey(fs, key, t, d, l)
    decreases |t|, 6
  {
    hide DecLoop, AreRecords, SkipField, IsOfKind, DecField, IsTaken, ValidFields, Find;
    if key != 0 && Find(fs, key / 8).None? {
      UnknownIff(fs, key, t, d, l);
    } else if key != 0 {
      KnownIff(fs, key, t, d, l);
    }
  }

  lemma {:induction false} UnknownIff(fs: seq<Field>, key: nat, t: seq<u8>, d: Dec, l: Loop)
    requires |d.slots| == |fs| && ValidFields(fs) && key != 0 && Find(fs, key / 8).None?
    ensures Follow(fs, key, t, d) == l && l.Stop? <==> AfterKey(fs, key, t, d, l)
    decreases |t|, 5
  {
    hide DecLoop, AreRecords, SkipField, IsOfKind, DecField, IsTaken, ValidFields;
    if Follow(fs, key, t, d) == l && l.Stop? {
      var t' := SkipField(key % 8, t).rest;
      SkipTaken(key % 8, t);
      var n := |t| - |t'|;
      assert t[n..] == t' && t[..n] + t' == t;
      assert SkipField(key % 8, t).value == ();
      SkipIff(key % 8, t[..n], t');
      RecordsIff(fs, t', d, l);
      assert IsOfKind(key % 8, t[..n]) && AreRecords(fs, t[n..], d, l);
    }
    if AfterKey(fs, key, t, d, l) {
      var n: nat :| n <= |t| && IsOfKind(key % 8, t[..n]) && AreRecords(fs, t[n..], d, l);
      assert t == t[..n] + t[n..];
      SkipIff(key % 8, t[..n], t[n..]);
      RecordsIff(fs, t[n..], d, l);
    }
  }

  lemma {:induction false} KnownIff(fs: seq<Field>, key: nat, t: seq<u8>, d: Dec, l: Loop)
    requires |d.slots| == |fs| && ValidFields(fs) && key != 0 && Find(fs, key / 8).Some?
    ensures Follow(fs, key, t, d) == l && l.Stop? <==> AfterKey(fs, key, t, d, l)
    decreases |t|, 5
  {
    hide *;
    if Follow(fs, key, t, d) == l && l.Stop? {
      KnownFollows(fs, key, t, d, l);
    }
    if AfterKey(fs, key, t, d, l) {
      KnownTaken(fs, key, t, d, l);
    }
  }

  lemma {:induction false} KnownFollows(fs: seq<Field>, key: nat, t: seq<u8>, d: Dec, l: Loop)
    requires |d.slots| == |fs| && ValidFields(fs) && key != 0 && Find(fs, key / 8).Some?
    requires Follow(fs, key, t, d) == l && l.Stop?
    ensures AfterKey(fs, key, t, d, l)
    decreases |t|, 4
  {
    hide DecLoop, AreRecords, SkipField, IsOfKind, DecField, IsTaken, ValidFields, FindFrom;
    var i := Find(fs, key / 8).value;
    FirstFound(fs, key / 8);
    var m, t' := DecField(fs, i, key % 8, t, d.slots).value, DecField(fs, i, key % 8, t, d.slots).rest;
    FieldType(fs, i);
    FieldTaken(fs, i, key % 8, t, d.slots);
    var n := |t| - |t'|;
    assert t[n..] == t';
    TakenIff(fs, i, key % 8, d.slots, t[..n], m, t');
    RecordsIff(fs, t', Dec(m, d.seen + {i}), l);
  }

  lemma {:induction false} KnownTaken(fs: seq<Field>, key: nat, t: seq<u8>, d: Dec, l: Loop)
    requires |d.slots| == |fs| && ValidFields(fs) && key != 0 && Find(fs, key / 8).Some?
    requires AfterKey(fs, key, t, d, l)
    ensures Follow(fs, key, t, d) == l && l.Stop?
    decreases |t|, 4
  {
    hide DecLoop, AreRecords, SkipField, IsOfKind, DecField, IsTaken, ValidFields, FindFrom;
    var i := Find(fs, key / 8).value;
    FirstFound(fs, key / 8);
    var j: nat, n: nat, m :| IsFirst(fs, key / 8, j) && n <= |t| && IsTaken(fs, j, key % 8, d.slots, t[..n], m)
                             && |m| == |fs| && AreRecords(fs, t[n..], Dec(m, d.seen + {j}), l);
    assert j == i;
    assert t == t[..n] + t[n..];
    TakenIff(fs, i, key % 8, d.slots, t[..n], m, t[n..]);
    RecordsIff(fs, t[n..], Dec(m, d.seen + {i}), l);
  }

  lemma FirstFound(fs: seq<Field>, tag: nat)
    requires Find(fs, tag).Some?
    ensures IsFirst(fs, tag, Find(fs, tag).value)
  {
  }

  /**
   Decoding any bytes over any contents succeeds with a message exactly if the bytes are records that turn the one
   into the other, with the required fields among them.
   */
  lemma {:induction false} DecodedIff(fs: seq<Field>, s: seq<u8>, m: seq<Slot>, m': seq<Slot>)
    requires |m| == |fs| && ValidFields(fs)
    ensures DecodeNoinit(fs, s, m).Got? && DecodeNoinit(fs, s, m).value.slots == m' <==> IsDecoded(fs, s, m, m')
    decreases |s|, 5
  {
    hide DecLoop, AreRecords, RequiredMet, RequiredSeen, ValidFields;
    if DecodeNoinit(fs, s, m).Got? && DecodeNoinit(fs, s, m).value.slots == m' {
      var l := DecLoop(fs, s, Dec(m, {}));
      RecordsIff(fs, s, Dec(m, {}), l);
      RequiredIff(fs, l.d.seen);
      assert IsEnd(fs, l, m');
    }
    if IsDecoded(fs, s, m, m') {
      var l :| IsEnd(fs, l, m') && AreRecords(fs, s, Dec(m, {}), l);
      RecordsIff(fs, s, Dec(m, {}), l);
      RequiredIff(fs, l.d.seen);
    }
  }

  // ---------------------------------------------------------------- what is there before

  /** The contents of a field that has not been met: what the descriptor gives, or zero, at every depth. */
  predicate IsInitial(f: Field, v: Val)
    decreases f, 0
  {
    match f.ltype
    case LSubmessage(sub) =>
      v.VMsg? && |v.slots| == |sub| && forall i :: 0 <= i < |sub| ==> IsInitialSlot(sub[i], v.slots[i])
    case LBytes(_) => if f.init.Some? then v == f.init.value else v == VBytes([])
    case LString(_) => if f.init.Some? then v == f.init.value else v == VBytes([])
    case LFixedBytes(n) =>
      if f.init.Some? then v == f.init.value
      else v.VBytes? && |v.b| == n && forall k :: 0 <= k < n ==> v.b[k] == 0
    case _ => if f.init.Some? then v == f.init.value else v == VInt(0)
  }

  predicate IsInitialSlot(f: Field, s: Slot)
    decreases f, 1
  {
    match f.htype
    case Required => s.Req? && IsInitial(f, s.v)
    case Optional => s.Opt? && !s.has && IsInitial(f, s.v)
    case Singular => s.Sing? && IsInitial(f, s.v)
    case Repeated(_) => s == Rep([])
    case Oneof(_) => s == One(None)
  }

  lemma {:induction false} InitIs(f: Field)
    ensures IsInitial(f, InitValue(f))
    decreases f, 0
  {
    if f.ltype.LSubmessage? {
      DefaultsAre(f.ltype.fields);
    }
  }

  lemma {:induction false} DefaultsAre(fs: seq<Field>)
    ensures |Defaults(fs)| == |fs| && forall i :: 0 <= i < |fs| ==> IsInitialSlot(fs[i], Defaults(fs)[i])
    decreases fs
  {
    hide IsInitial, InitValue;
    forall i | 0 <= i < |fs|
      ensures IsInitialSlot(fs[i], DefaultSlot(fs[i]))
    {
      InitIs(fs[i]);
    }
  }
}
