/**
 The input stream and the decoder, step by step over mutable state, proved against the decoding functions
 of PbModel: the loop over tags, the cyclic field cursor, substreams, and the bit set of required fields.
 */
module PbDecode {
  import opened Prelude
  import opened Bits
  import opened PbWire
  import opened PbModel
  import opened PbIter
  import opened PbRoundTrip

  /** A reading operation agrees with a reader function: on success, and on what it leaves to be read. */
  predicate Took<T(==)>(r: Read<T>, ok: bool, value: T, rest: seq<u8>) {
    && (ok <==> r.Got?)
    && (ok ==> value == r.value && rest == r.rest)
  }

  class IStream {
    const buf: seq<u8>
    var pos: nat
    var left: nat

    ghost predicate Valid()
      reads this
    {
      pos + left <= |buf|
    }

    /** The bytes still to be read. */
    ghost function Rest(): seq<u8>
      requires Valid()
      reads this
    {
      buf[pos..pos + left]
    }

    ghost function End(): nat
      reads this
    {
      pos + left
    }

    constructor (buf: seq<u8>, pos: nat, left: nat)
      requires pos + left <= |buf|
      ensures Valid() && this.buf == buf && this.pos == pos && this.left == left
    {
      this.buf, this.pos, this.left := buf, pos, left;
    }

    method ReadByte() returns (ok: bool, b: u8)
      requires Valid()
      modifies this
      ensures Valid() && End() == old(End())
      ensures ok <==> old(Rest()) != []
      ensures ok ==> b == old(Rest())[0] && Rest() == old(Rest())[1..]
      ensures !ok ==> left == old(left)
    {
      if left == 0 {
        return false, 0;
      }
      b := buf[pos];
      pos, left := pos + 1, left - 1;
      ok := true;
    }

    method Read(n: nat) returns (ok: bool, data: seq<u8>)
      requires Valid()
      modifies this
      ensures Valid() && End() == old(End())
      ensures ok <==> n <= |old(Rest())|
      ensures ok ==> data == old(Rest())[..n] && Rest() == old(Rest())[n..]
      ensures !ok ==> left == old(left)
    {
      if left < n {
        return false, [];
      }
      data := buf[pos..pos + n];
      pos, left := pos + n, left - n;
      ok := true;
    }

    method Skip(n: nat) returns (ok: bool)
      requires Valid()
      modifies this
      ensures Valid() && End() == old(End())
      ensures Took(PbModel.Skip(old(Rest()), n), ok, (), Rest())
    {
      var data: seq<u8>;
      ok, data := Read(n);
    }

    method DecodeVarint32() returns (ok: bool, value: nat)
      requires Valid()
      modifies this
      ensures Valid() && End() == old(End())
      ensures Took(Varint32(old(Rest())), ok, value, Rest())
    {
      hide Or, Pow2;
      var b: u8;
      value := 0;
      ok, b := ReadByte();
      if !ok {
        return;
      }
      if b < 128 {
        value := b;
        return;
      }
      var bitpos: nat, result: nat := 7, b % 128;
      while true
        invariant Valid() && End() == old(End())
        invariant Varint32(old(Rest())) == Varint32Loop(Rest(), bitpos, result)
        decreases left
      {
        ghost var s := Rest();
        ok, b := ReadByte();
        if !ok {
          return;
        }
        if Overflows32(b, bitpos, result) {
          return false, 0;
        }
        result := Accumulate32(b % 128, bitpos, result);
        bitpos := (bitpos + 7) % 256;
        if b < 128 {
          break;
        }
      }
      if bitpos == 35 && (b / 16) % 8 != 0 {
        return false, 0;
      }
      return true, result;
    }

    method DecodeVarint() returns (ok: bool, value: nat)
      requires Valid()
      modifies this
      ensures Valid() && End() == old(End())
      ensures Took(Varint64(old(Rest())), ok, value, Rest())
    {
      hide Or, Pow2;
      ghost var s := Rest();
      ghost var n := 0;
      var bitpos, result := 0, 0;
      value := 0;
      var b: u8 := 128;
      while b >= 128
        invariant Valid() && End() == old(End())
        invariant n <= 10 && n <= |s| && bitpos == 7 * n && Rest() == s[n..]
        invariant b >= 128 <==> forall k :: 0 <= k < n ==> s[k] >= 128
        invariant forall k :: 0 <= k < n - 1 ==> s[k] >= 128
        invariant n > 0 ==> s[n - 1] == b
        invariant result == Payload(s[..n]) % TWO64
        decreases left
      {
        if bitpos >= 64 {
          Unterminated(s, 10);
          return false, 0;
        }
        ok, b := ReadByte();
        if !ok {
          Unterminated(s, n);
          return;
        }
        AccumulateByte(s, n, result);
        result := Or(result, (b % 128 * Pow2(bitpos)) % TWO64);
        bitpos := bitpos + 7;
        n := n + 1;
      }
      Terminated(s, n);
      return true, result;
    }

    method SkipVarint() returns (ok: bool)
      requires Valid()
      modifies this
      ensures Valid() && End() == old(End())
      ensures Took(PbModel.SkipField(WT_VARINT, old(Rest())), ok, (), Rest())
    {
      ghost var s := Rest();
      ghost var n := 0;
      var b: u8 := 128;
      while b >= 128
        invariant Valid() && End() == old(End())
        invariant n <= |s| && Rest() == s[n..]
        invariant b >= 128 ==> forall k :: 0 <= k < n ==> s[k] >= 128
        invariant forall k :: 0 <= k < n - 1 ==> s[k] >= 128
        invariant if n == 0 then b >= 128 else s[n - 1] == b
        decreases left
      {
        ok, b := ReadByte();
        if !ok {
          Unterminated(s, n);
          return;
        }
        n := n + 1;
      }
      Terminated(s, n);
      return true;
    }

    method SkipField(wt: nat) returns (ok: bool)
      requires Valid()
      modifies this
      ensures Valid() && (ok ==> End() == old(End()))
      ensures Took(PbModel.SkipField(wt, old(Rest())), ok, (), Rest())
    {
      hide Varint32, VarintLen;
      if wt == WT_VARINT {
        ok := SkipVarint();
      } else if wt == WT_64BIT {
        ok := Skip(8);
      } else if wt == WT_STRING {
        var n: nat;
        ok, n := DecodeVarint32();
        if ok {
          ok := Skip(n);
        }
      } else if wt == WT_32BIT {
        ok := Skip(4);
      } else {
        ok := false;
      }
    }

    /** A substream over the next length-prefixed bytes; meanwhile the parent is not to be read. */
    method MakeSubstream() returns (ok: bool, sub: IStream)
      requires Valid()
      modifies this
      ensures fresh(sub) && sub.Valid() && sub.buf == buf && Valid()
      ensures ok <==> Substream(old(Rest())).Got?
      ensures ok ==> sub.Rest() == Substream(old(Rest())).value
      ensures ok ==> sub.End() + left == old(End()) && buf[sub.End()..sub.End() + left] == Substream(old(Rest())).rest
    {
      hide Varint32;
      var size: nat;
      ok, size := DecodeVarint32();
      if !ok || left < size {
        ok := false;
        sub := new IStream(buf, pos, left);
        return;
      }
      sub := new IStream(buf, pos, size);
      left := left - size;
      assert pos + size + left == old(End());
    }

    /** Steps over what the substream was not asked for, so that the parent goes on behind it. */
    method CloseSubstream(sub: IStream)
      requires sub != this && sub.Valid() && sub.buf == buf && sub.End() + left <= |buf|
      modifies this, sub
      ensures Valid() && left == old(left) && pos == old(sub.End())
    {
      if sub.left > 0 {
        var _, _ := sub.Read(sub.left);
      }
      pos := sub.pos;
    }
  }

  // ---------------------------------------------------------------- varint loops

  lemma Unterminated(s: seq<u8>, n: nat)
    requires n <= |s| && forall k :: 0 <= k < n ==> s[k] >= 128
    requires n == |s| || n == 10
    ensures Varint64(s).Fail?
    ensures n == |s| ==> VarintLen(s) == 0
  {
  }

  lemma Terminated(s: seq<u8>, n: nat)
    requires 0 < n <= |s| && s[n - 1] < 128
    requires forall k :: 0 <= k < n - 1 ==> s[k] >= 128
    ensures VarintLen(s) == n
  {
  }

  lemma AccumulateByte(s: seq<u8>, n: nat, result: nat)
    requires n < 10 && n < |s| && result == Payload(s[..n]) % TWO64
    ensures Or(result, (s[n] % 128 * Pow2(7 * n)) % TWO64) == Payload(s[..n + 1]) % TWO64
  {
    hide Or, Pow2, Payload;
    assert s[..n + 1] == s[..n] + [s[n]];
    PayloadSnoc(s[..n], s[n]);
    WordBits();
    if n < 9 {
      Pow2Monotone(7 * n + 7, 63);
      Pow2Sum(7, 7 * n);
      assert 7 + 7 * n == 7 * n + 7;
      AddGroup(Payload(s[..n]), s[n] % 128, 7 * n);
    } else {
      AddLastGroup(Payload(s[..n]), s[n] % 128);
    }
  }

  lemma AddGroup(x: nat, g: nat, bitpos: nat)
    requires x < Pow2(bitpos) && g < 128 && 128 * Pow2(bitpos) <= TWO63
    ensures Or(x % TWO64, (g * Pow2(bitpos)) % TWO64) == (x + g * Pow2(bitpos)) % TWO64
  {
    hide Or, Pow2;
    var shifted := g * Pow2(bitpos);
    OrDisjoint(x, g, bitpos);
    GroupBound(x, g, Pow2(bitpos));
    ModSmall(x, TWO64);
    ModSmall(shifted, TWO64);
    ModSmall(x + shifted, TWO64);
  }

  lemma ModSmall(a: nat, m: nat)
    requires a < m
    ensures a % m == a
  {
  }

  lemma GroupBound(x: nat, g: nat, p: nat)
    requires x < p && g < 128 && 128 * p <= TWO63
    ensures x < TWO64 && 0 <= g * p < TWO64 && x + g * p < TWO64
  {
    MulMonotone(0, g, p);
    MulMonotone(g, 127, p);
    SumBound(x, g * p, p);
  }

  lemma SumBound(x: nat, gp: int, p: nat)
    requires x < p && 0 <= gp <= 127 * p && 128 * p <= TWO63
    ensures x < TWO64 && gp < TWO64 && x + gp < TWO64
  {
  }

  lemma {:induction false} MulMonotone(a: nat, b: nat, p: nat)
    requires a <= b
    ensures a * p <= b * p
    decreases b
  {
    if a < b {
      MulMonotone(a, b - 1, p);
      assert b * p == (b - 1) * p + p;
    }
  }

  /** The tenth group lands on bit 63, and only its lowest bit is kept. */
  lemma AddLastGroup(x: nat, g: nat)
    requires x < TWO63 && g < 128
    ensures Or(x % TWO64, (g * Pow2(63)) % TWO64) == (x + g * Pow2(63)) % TWO64
  {
    hide Or, Pow2;
    WordBits();
    var h := g / 2;
    assert g * TWO63 == (g % 2) * TWO63 + h * TWO64;
    assert (g * TWO63) % TWO64 == (g % 2) * TWO63;
    OrDisjoint(x, g % 2, 63);
  }

  lemma WordBits()
    ensures Pow2(7) == 128 && Pow2(63) == TWO63 && Pow2(32) == TWO32
  {
    hide Pow2;
    PowersOfTwo();
    assert Pow2(14) == 0x4000 by { Pow2Sum(7, 7); }
    assert Pow2(28) == 0x1000_0000 by { Pow2Sum(14, 14); }
    assert Pow2(56) == 0x100_0000_0000_0000 by { Pow2Sum(28, 28); }
    assert Pow2(63) == TWO63 by { Pow2Sum(7, 56); }
    assert Pow2(32) == TWO32 by { Pow2Sum(4, 28); }
  }

  // ---------------------------------------------------------------- required fields

  /** The required fields met so far, as two 32-bit words. */
  class FieldsSeen {
    const words: array<nat>
    ghost var marks: set<nat>

    ghost predicate Valid()
      reads this, words
    {
      && words.Length == 2
      && words[0] < TWO32 && words[1] < TWO32
      && forall r :: 0 <= r < 64 ==> (r in marks <==> Bit(words[r / 32], r % 32))
    }

    constructor ()
      ensures Valid() && fresh(words) && marks == {}
    {
      words := new nat[2](_ => 0);
      marks := {};
      new;
      forall r | 0 <= r < 64
        ensures !Bit(words[r / 32], r % 32)
      {
        BitZero(r % 32);
      }
    }

    method Mark(r: nat)
      requires Valid() && r < 64
      modifies this, words
      ensures Valid() && marks == old(marks) + {r}
    {
      hide Bit, Or, Pow2;
      var w := words[r / 32];
      WordBits();
      Pow2Monotone(r % 32, 32);
      OrBound(w, Pow2(r % 32), 32);
      forall k | 0 <= k < 32
        ensures Bit(Or(w, Pow2(r % 32)), k) <==> Bit(w, k) || k == r % 32
      {
        BitOr(w, Pow2(r % 32), k);
        BitPow2(r % 32, k);
      }
      words[r / 32] := Or(w, Pow2(r % 32));
      marks := marks + {r};
    }

    /** Whether the first `count` required fields have been met, by comparing whole words. */
    method AllMarked(count: nat) returns (ok: bool)
      requires Valid() && count <= 64 && forall r :: r in marks ==> r < count
      ensures ok <==> forall r :: 0 <= r < count ==> r in marks
    {
      hide Bit, Or, Pow2, AllSet;
      for i := 0 to count / 32
        invariant forall r :: 0 <= r < 32 * i ==> r in marks
      {
        WordFull(words[i], 32);
        if words[i] != TWO32 - 1 {
          MissingBit(words[i], 32, marks, i);
          return false;
        }
        FullWord(words[i], 32, marks, i);
      }
      var c := count % 32;
      if c != 0 {
        var w := words[count / 32];
        LowWord(w, c, marks, count / 32);
        WordFull(w, c);
        ShiftedOnes(c);
        if w != (TWO32 - 1) / Pow2(32 - c) {
          MissingBit(w, c, marks, count / 32);
          return false;
        }
        FullWord(w, c, marks, count / 32);
      }
      return true;
    }
  }

  lemma WordFull(w: nat, n: nat)
    requires n <= 32 && (w < Pow2(n) || (n == 32 && w < TWO32))
    ensures w == Pow2(n) - 1 <==> AllSet(w, n)
    ensures n == 32 ==> Pow2(n) - 1 == TWO32 - 1
  {
    WordBits();
    AllOnes(w, n);
  }

  lemma MissingBit(w: nat, n: nat, marks: set<nat>, i: nat)
    requires n <= 32 && i < 2 && !AllSet(w, n)
    requires forall r :: 32 * i <= r < 32 * i + n ==> (r in marks <==> Bit(w, r % 32))
    ensures exists r :: 32 * i <= r < 32 * i + n && r !in marks
  {
    var k :| 0 <= k < n && !Bit(w, k);
    assert (32 * i + k) % 32 == k;
    assert 32 * i + k !in marks;
  }

  lemma FullWord(w: nat, n: nat, marks: set<nat>, i: nat)
    requires n <= 32 && i < 2 && AllSet(w, n)
    requires forall r :: 32 * i <= r < 32 * i + n ==> (r in marks <==> Bit(w, r % 32))
    ensures forall r :: 32 * i <= r < 32 * i + n ==> r in marks
  {
  }

  lemma LowWord(w: nat, c: nat, marks: set<nat>, i: nat)
    requires c < 32 && i < 2 && w < TWO32
    requires forall r :: 32 * i <= r < 32 * i + 32 ==> (r in marks <==> Bit(w, r % 32))
    requires forall r :: r in marks ==> r < 32 * i + c
    ensures w < Pow2(c)
  {
    WordBits();
    forall k | c <= k < 32
      ensures !Bit(w, k)
    {
      assert (32 * i + k) % 32 == k;
      assert 32 * i + k !in marks;
    }
    HighBitsClear(w, c, 32);
  }

  lemma {:induction false} HighBitsClear(w: nat, c: nat, n: nat)
    requires c <= n && w < Pow2(n) && forall k :: c <= k < n ==> !Bit(w, k)
    ensures w < Pow2(c)
    decreases n
  {
    if c < n {
      TopBit(w, n);
      HighBitsClear(w, c, n - 1);
    }
  }

  lemma {:induction false} TopBit(w: nat, n: nat)
    requires n > 0 && w < Pow2(n) && !Bit(w, n - 1)
    ensures w < Pow2(n - 1)
    decreases n
  {
    if n > 1 {
      TopBit(w / 2, n - 1);
    }
  }

  lemma ShiftedOnes(c: nat)
    requires 0 < c < 32
    ensures (TWO32 - 1) / Pow2(32 - c) == Pow2(c) - 1
  {
    hide Pow2;
    WordBits();
    Pow2Sum(c, 32 - c);
    assert c + (32 - c) == 32;
    DivHelper(Pow2(c), Pow2(32 - c));
  }

  lemma DivHelper(q: nat, d: nat)
    requires q > 0 && d > 0
    ensures (q * d - 1) / d == q - 1
  {
    assert q * d - 1 == (q - 1) * d + (d - 1);
    ModUnique(q * d - 1, d, q - 1, d - 1);
  }

  // ---------------------------------------------------------------- decoding

  method DecodeTag(st: IStream) returns (ok: bool, tag: Tag)
    requires st.Valid()
    modifies st
    ensures st.Valid() && st.End() == old(st.End())
    ensures Took(DecTag(old(st.Rest())), ok, tag, st.Rest())
  {
    hide Varint32;
    var temp: nat;
    tag := EndTag;
    ok, temp := st.DecodeVarint32();
    if ok && temp != 0 {
      tag := Tag(temp / 8, temp % 8);
    }
  }

  method DecodeScalar(st: IStream, l: LType) returns (ok: bool, v: Val)
    requires st.Valid() && Packable(l)
    modifies st
    ensures st.Valid() && st.End() == old(st.End())
    ensures Took(DecScalar(l, old(st.Rest())), ok, v, st.Rest())
  {
    hide Varint64, UnZigZag, ToSigned64, ToSigned32, LittleEndian;
    v := VInt(0);
    if l.LFixed32? || l.LFixed64? {
      var data: seq<u8>;
      ok, data := st.Read(if l.LFixed32? then 4 else 8);
      if ok {
        v := VInt(LittleEndian(data));
      }
      return;
    }
    var w: nat;
    ok, w := st.DecodeVarint();
    if !ok {
      return;
    }
    match l
    case LVarint(n) =>
      var i := if n == 8 then ToSigned64(w) else ToSigned32(w);
      ok := FitsSigned(i, n);
      v := VInt(i);
    case LUvarint(n) =>
      ok := FitsUnsigned(w, n);
      v := VInt(w);
    case LSvarint(n) =>
      ok := FitsSigned(UnZigZag(w), n);
      v := VInt(UnZigZag(w));
  }

  method DecodeValue(st: IStream, l: LType, base: Val) returns (ok: bool, v: Val)
    requires st.Valid() && ValidType(l)
    modifies st
    ensures st.Valid() && (ok ==> st.End() == old(st.End()))
    ensures Took(DecValue(l, old(st.Rest()), base), ok, v, st.Rest())
    decreases st.left, 1
  {
    hide Varint32, DecScalar, Substream, PbModel.DecodeNoinit, ValidFields;
    v := VBytes([]);
    if Packable(l) {
      ok, v := DecodeScalar(st, l);
      return;
    }
    if l.LSubmessage? {
      ok, v := DecodeSubmessage(st, l.fields, base);
      return;
    }
    ok, v := DecodeBytes(st, l, base);
  }

  method DecodeBytes(st: IStream, l: LType, base: Val) returns (ok: bool, v: Val)
    requires st.Valid() && (l.LBytes? || l.LString? || l.LFixedBytes?)
    modifies st
    ensures st.Valid() && st.End() == old(st.End())
    ensures Took(DecValue(l, old(st.Rest()), base), ok, v, st.Rest())
  {
    hide Varint32, DecValue;
    var size: nat;
    var data: seq<u8>;
    v := VBytes([]);
    BytesUnfold(l, st.Rest(), base);
    ok, size := st.DecodeVarint32();
    if !ok {
      return;
    }
    if l.LBytes? {
      if size > PB_SIZE_MAX || size + BYTES_OFFSET > l.dataSize {
        return false, v;
      }
    } else if l.LString? {
      if size + 1 > l.dataSize {
        return false, v;
      }
    } else {
      if size > PB_SIZE_MAX {
        return false, v;
      }
      if size == 0 {
        return true, VBytes(Zeros(l.dataSize));
      }
      if size != l.dataSize {
        return false, v;
      }
    }
    ok, data := st.Read(size);
    v := VBytes(data);
  }

  /** The three byte-string types differ only in the sizes they accept. */
  lemma BytesUnfold(l: LType, s: seq<u8>, base: Val)
    requires l.LBytes? || l.LString? || l.LFixedBytes?
    ensures Varint32(s).Fail? ==> DecValue(l, s, base) == Fail
    ensures Varint32(s).Got? ==> DecValue(l, s, base) == BytesOfSize(l, Varint32(s).value, Varint32(s).rest)
  {
    hide Varint32;
  }

  function BytesOfSize(l: LType, size: nat, rest: seq<u8>): Read<Val> {
    if l.LFixedBytes? && size == 0 then Got(VBytes(Zeros(l.dataSize)), rest)
    else if !SizeAccepted(l, size) || |rest| < size then Fail
    else Got(VBytes(rest[..size]), rest[size..])
  }

  predicate SizeAccepted(l: LType, size: nat) {
    match l
    case LBytes(n) => size <= PB_SIZE_MAX && size + BYTES_OFFSET <= n
    case LString(n) => size + 1 <= n
    case LFixedBytes(n) => size <= PB_SIZE_MAX && size == n
    case _ => false
  }

  method DecodeSubmessage(st: IStream, fs: seq<Field>, base: Val) returns (ok: bool, v: Val)
    requires st.Valid() && ValidFields(fs)
    modifies st
    ensures st.Valid() && (ok ==> st.End() == old(st.End()))
    ensures Took(DecValue(LSubmessage(fs), old(st.Rest()), base), ok, v, st.Rest())
    decreases st.left, 0
  {
    hide Substream, ValidFields, PbModel.DecodeNoinit;
    var sub: IStream;
    v := base;
    ghost var before := st.left;
    SubstreamShorter(st.Rest());
    ok, sub := st.MakeSubstream();
    if !ok || !base.VMsg? || |base.slots| != |fs| {
      return false, v;
    }
    assert |sub.Rest()| == sub.left;
    var slots: seq<Slot>;
    ok, slots := DecodeNoinit(sub, fs, base.slots);
    if ok {
      st.CloseSubstream(sub);
      v := VMsg(slots);
    }
  }

  lemma SubstreamShorter(s: seq<u8>)
    ensures Substream(s).Got? ==> |Substream(s).value| < |s|
  {
  }

  method DecodePacked(st: IStream, l: LType, items: seq<Val>, max: nat) returns (ok: bool, all: seq<Val>)
    requires st.Valid() && Packable(l)
    modifies st
    ensures st.Valid() && (ok ==> st.End() == old(st.End()))
    ensures Substream(old(st.Rest())).Fail? ==> !ok
    ensures Substream(old(st.Rest())).Got? ==>
              var s := Substream(old(st.Rest()));
              && (ok <==> DecPacked(l, s.value, items, max).Some?)
              && (ok ==> all == DecPacked(l, s.value, items, max).value && st.Rest() == s.rest)
  {
    hide Substream, DecScalar;
    all := items;
    var sub: IStream;
    ok, sub := st.MakeSubstream();
    if !ok {
      return;
    }
    ghost var s := sub.Rest();
    ghost var end := sub.End();
    ghost var parent := st.left;
    var status := true;
    while sub.left > 0 && |all| < max
      invariant sub.Valid() && st.Valid() && sub.End() == end && st.left == parent && fresh(sub)
      invariant DecPacked(l, s, items, max) == DecPacked(l, sub.Rest(), all, max)
      decreases sub.left
    {
      var v: Val;
      status, v := DecodeScalar(sub, l);
      if !status {
        break;
      }
      all := all + [v];
    }
    if !status {
      return false, all;
    }
    if sub.left != 0 {
      return false, all;
    }
    st.CloseSubstream(sub);
    return status, all;
  }

  method DecodeField(st: IStream, fs: seq<Field>, i: nat, wt: nat, slots: seq<Slot>) returns (ok: bool, out: seq<Slot>)
    requires st.Valid() && |fs| == |slots| && i < |fs| && ValidFields(fs)
    modifies st
    ensures st.Valid() && (ok ==> st.End() == old(st.End()))
    ensures Took(DecField(fs, i, wt, old(st.Rest()), slots), ok, out, st.Rest())
    decreases st.left, 2
  {
    hide DecValue, DecPacked, Substream, Store, Base, Items, ValidType;
    out := slots;
    var f := fs[i];
    assert ValidField(f);
    if f.htype.Repeated? && wt == WT_STRING && Packable(f.ltype) {
      var items: seq<Val>;
      ok, items := DecodePacked(st, f.ltype, Items(slots[i]), f.htype.arraySize);
      if ok {
        out := slots[i := Rep(items)];
      }
      return;
    }
    if f.htype.Repeated? && |Items(slots[i])| >= f.htype.arraySize {
      return false, out;
    }
    var v: Val;
    ok, v := DecodeValue(st, f.ltype, Base(f, slots[i]));
    if ok {
      out := Store(fs, slots, i, v);
    }
  }

  /** The marks agree with the required fields among those met. */
  predicate MarksAgree(fs: seq<Field>, marks: set<nat>, seen: set<nat>) {
    && (forall j :: 0 <= j < |fs| && fs[j].htype.Required? && RequiredBefore(fs, j) < PB_MAX_REQUIRED_FIELDS ==>
          (RequiredBefore(fs, j) in marks <==> j in seen))
    && (forall r :: r in marks ==> r < PB_MAX_REQUIRED_FIELDS && r < RequiredBefore(fs, |fs|))
  }

  /** What follows one tag: the field is found, marked and decoded, or stepped over. */
  method DecodeTagged(st: IStream, fs: seq<Field>, iter: FieldIter, seen: FieldsSeen, tag: nat, wt: nat,
                      slots: seq<Slot>, ghost met: set<nat>)
    returns (ok: bool, out: seq<Slot>, ghost met': set<nat>)
    requires st.Valid() && iter.Valid() && seen.Valid() && iter.fs == fs && |slots| == |fs| && ValidFields(fs)
    requires MarksAgree(fs, seen.marks, met)
    modifies st, iter, seen, seen.words
    ensures st.Valid() && iter.Valid() && seen.Valid()
    ensures ok ==> |out| == |fs| && st.left <= old(st.left)
    ensures ok ==> st.End() == old(st.End()) && MarksAgree(fs, seen.marks, met')
    ensures ok ==> AfterTag(fs, tag, wt, old(st.Rest()), Dec(slots, met)) == DecLoop(fs, st.Rest(), Dec(out, met'))
    ensures !ok ==> AfterTag(fs, tag, wt, old(st.Rest()), Dec(slots, met)) == Error
    decreases st.left, 3
  {
    hide DecLoop, Find, DecField, PbModel.SkipField, ValidFields, MarksAgree, Bit;
    out, met' := slots, met;
    NonzeroTags(fs);
    var found := iter.Find(tag);
    FindAgrees(fs, tag, iter.pos, found);
    if !found {
      ok := st.SkipField(wt);
      return;
    }
    if fs == [] {
      return false, out, met;
    }
    var i := iter.pos;
    MarkAgrees(fs, seen.marks, met, i);
    if fs[i].htype.Required? && iter.requiredIndex < PB_MAX_REQUIRED_FIELDS {
      seen.Mark(iter.requiredIndex);
    }
    met' := met + {i};
    ok, out := DecodeField(st, fs, i, wt, slots);
  }

  method DecodeNoinit(st: IStream, fs: seq<Field>, slots: seq<Slot>) returns (ok: bool, out: seq<Slot>)
    requires st.Valid() && |slots| == |fs| && ValidFields(fs)
    modifies st
    ensures st.Valid() && (ok ==> st.End() == old(st.End()))
    ensures ok <==> PbModel.DecodeNoinit(fs, old(st.Rest()), slots).Got?
    ensures ok ==> out == PbModel.DecodeNoinit(fs, old(st.Rest()), slots).value.slots
    ensures ok ==> st.Rest() == PbModel.DecodeNoinit(fs, old(st.Rest()), slots).rest
    decreases st.left, 4
  {
    hide DecLoop, DecTag, RequiredMet, AfterTag, ValidFields, MarksAgree, Bit;
    var iter := new FieldIter(fs, NoLayout(fs), 0);
    var seen := new FieldsSeen();
    ghost var met: set<nat> := {};
    out := slots;
    NonzeroTags(fs);
    NothingMarked(fs);
    ghost var all := DecLoop(fs, st.Rest(), Dec(slots, {}));
    var ended := false;
    while st.left > 0 && !ended
      invariant st.Valid() && iter.Valid() && seen.Valid() && iter.fs == fs && |out| == |fs|
      invariant fresh(iter) && fresh(seen) && fresh(seen.words)
      invariant st.End() == old(st.End()) && st.left <= old(st.left)
      invariant MarksAgree(fs, seen.marks, met)
      invariant !ended ==> all == DecLoop(fs, st.Rest(), Dec(out, met))
      invariant ended ==> all == Stop(Dec(out, met), true, st.Rest())
      decreases !ended, st.left
    {
      var tag: Tag;
      ghost var before := st.Rest();
      LoopUnfold(fs, before, Dec(out, met));
      ok, tag := DecodeTag(st);
      if !ok {
        return;
      }
      if tag.EndTag? {
        ended := true;
        continue;
      }
      ok, out, met := DecodeTagged(st, fs, iter, seen, tag.tag, tag.wt, out, met);
      if !ok {
        return;
      }
    }
    if !ended {
      LoopUnfold(fs, st.Rest(), Dec(out, met));
    }
    var count := CountRequired(iter);
    if count > PB_MAX_REQUIRED_FIELDS {
      count := PB_MAX_REQUIRED_FIELDS;
    }
    MarksDecide(fs, seen.marks, met, count);
    ok := seen.AllMarked(count);
  }

  /** Default contents of one field: flags and counts cleared, data set to the default or to zeros. */
  method SetFieldToDefault(f: Field) returns (s: Slot)
    requires ValidType(f.ltype)
    ensures s == DefaultSlot(f)
    decreases f, 1
  {
    if f.htype.Repeated? {
      return Rep([]);
    }
    if f.htype.Oneof? {
      return One(None);
    }
    var v: Val;
    if f.ltype.LSubmessage? {
      var slots := SetToDefaults(f.ltype.fields, seq(|f.ltype.fields|, i => Rep([])));
      v := VMsg(slots);
    } else if f.init.Some? {
      v := f.init.value;
    } else if f.ltype.LFixedBytes? {
      v := VBytes(Zeros(f.ltype.dataSize));
    } else {
      v := if Packable(f.ltype) then VInt(0) else VBytes([]);
    }
    match f.htype {
      case Required => s := Req(v);
      case Optional => s := Opt(false, v);
      case _ => s := Sing(v);
    }
  }

  /** Runs the cursor over the descriptor, whatever the storage held before. */
  method SetToDefaults(fs: seq<Field>, slots: seq<Slot>) returns (out: seq<Slot>)
    requires ValidFields(fs) && |slots| == |fs|
    ensures out == Defaults(fs)
    decreases fs, 2
  {
    NonzeroTags(fs);
    var iter := new FieldIter(fs, NoLayout(fs), 0);
    out := slots;
    var more := iter.Begin();
    ghost var done := 0;
    while more
      invariant iter.Valid() && iter.fs == fs && fresh(iter) && |out| == |fs| && done <= |fs|
      invariant more ==> iter.pos == done < |fs|
      invariant !more ==> done == |fs|
      invariant forall k :: 0 <= k < done ==> out[k] == DefaultSlot(fs[k])
      decreases |fs| - done, more
    {
      assert ValidField(fs[iter.pos]);
      var s := SetFieldToDefault(fs[iter.pos]);
      out := out[iter.pos := s];
      more := iter.Next();
      done := done + 1;
    }
  }

  /** Sets the message to its defaults, then decodes over them. */
  method Decode(st: IStream, fs: seq<Field>, slots: seq<Slot>) returns (ok: bool, out: seq<Slot>)
    requires st.Valid() && |slots| == |fs| && ValidFields(fs)
    modifies st
    ensures st.Valid() && (ok ==> st.End() == old(st.End()))
    ensures ok <==> PbModel.Decode(fs, old(st.Rest())).Got?
    ensures ok ==> out == PbModel.Decode(fs, old(st.Rest())).value.slots && st.Rest() == PbModel.Decode(fs, old(st.Rest())).rest
  {
    hide PbModel.DecodeNoinit, Defaults, ValidFields;
    out := SetToDefaults(fs, slots);
    ok, out := DecodeNoinit(st, fs, out);
  }

  /** Runs the cursor to the end of the descriptor to learn how many required fields there are. */
  method CountRequired(iter: FieldIter) returns (count: nat)
    requires iter.Valid() && forall i :: 0 <= i < |iter.fs| ==> iter.fs[i].tag != 0
    modifies iter
    ensures iter.Valid()
    ensures count == RequiredBefore(iter.fs, |iter.fs|)
  {
    count := iter.requiredIndex;
    var last: nat := iter.pos;
    var more := iter.Next();
    while more
      invariant iter.Valid()
      invariant last < |iter.fs| || (last == 0 && iter.fs == [])
      invariant count == RequiredBefore(iter.fs, last)
      invariant more ==> last + 1 < |iter.fs| && iter.pos == last + 1
      invariant !more ==> iter.pos == 0 && (last + 1 == |iter.fs| || (iter.fs == [] && last == 0))
      decreases more, |iter.fs| - last
    {
      count := iter.requiredIndex;
      last := iter.pos;
      more := iter.Next();
    }
    if TagAt(iter.fs, iter.pos) != 0 && iter.fs[last].htype.Required? {
      count := count + 1;
    }
  }

  // ---------------------------------------------------------------- lemmas of the loop

  function NoLayout(fs: seq<Field>): (ls: seq<Layout>)
    ensures |ls| == |fs|
  {
    seq(|fs|, i => Layout(0, 0, 0))
  }

  lemma NonzeroTags(fs: seq<Field>)
    requires ValidFields(fs)
    ensures forall i :: 0 <= i < |fs| ==> fs[i].tag != 0
  {
    forall i | 0 <= i < |fs|
      ensures fs[i].tag != 0
    {
      assert ValidField(fs[i]);
    }
  }

  lemma NothingMarked(fs: seq<Field>)
    ensures MarksAgree(fs, {}, {})
  {
  }

  /** One step of the decoding loop. */
  lemma LoopUnfold(fs: seq<Field>, s: seq<u8>, d: Dec)
    requires |d.slots| == |fs|
    ensures s == [] ==> DecLoop(fs, s, d) == Stop(d, false, [])
    ensures s != [] && DecTag(s).Fail? ==> DecLoop(fs, s, d) == Error
    ensures s != [] && DecTag(s).Got? && DecTag(s).value == EndTag ==> DecLoop(fs, s, d) == Stop(d, true, DecTag(s).rest)
    ensures s != [] && DecTag(s).Got? && DecTag(s).value.Tag? ==>
              DecLoop(fs, s, d) == AfterTag(fs, DecTag(s).value.tag, DecTag(s).value.wt, DecTag(s).rest, d)
  {
    hide DecTag, Find, DecField, PbModel.SkipField;
  }

  function AfterTag(fs: seq<Field>, tag: nat, wt: nat, rest: seq<u8>, d: Dec): Loop
    requires |d.slots| == |fs|
  {
    if fs == [] && tag == 0 then Error
    else if Find(fs, tag).None? then AfterSkip(fs, d, PbModel.SkipField(wt, rest))
    else AfterField(fs, d, Find(fs, tag).value, DecField(fs, Find(fs, tag).value, wt, rest, d.slots))
  }

  lemma FindAgrees(fs: seq<Field>, tag: nat, pos: nat, found: bool)
    requires ValidFields(fs)
    requires found <==> (exists i :: 0 <= i < |fs| && fs[i].tag == tag) || (fs == [] && tag == 0)
    requires found ==> TagAt(fs, pos) == tag
    ensures !found ==> Find(fs, tag) == None && !(fs == [] && tag == 0)
    ensures found && fs != [] ==> pos < |fs| && Find(fs, tag) == Some(pos)
    ensures found && fs == [] ==> tag == 0
  {
    NonzeroTags(fs);
    if found && fs != [] {
      FindIndex(fs, pos);
    }
  }

  lemma {:induction false} RequiredMonotone(fs: seq<Field>, i: nat, j: nat)
    requires i < j <= |fs|
    ensures RequiredBefore(fs, i) + (if fs[i].htype.Required? then 1 else 0) <= RequiredBefore(fs, j)
    decreases j
  {
    if i < j - 1 {
      RequiredMonotone(fs, i, j - 1);
    }
  }

  lemma MarkAgrees(fs: seq<Field>, marks: set<nat>, seen: set<nat>, i: nat)
    requires MarksAgree(fs, marks, seen) && i < |fs|
    ensures var r := RequiredBefore(fs, i);
            if fs[i].htype.Required? && r < PB_MAX_REQUIRED_FIELDS then MarksAgree(fs, marks + {r}, seen + {i})
            else MarksAgree(fs, marks, seen + {i})
  {
    hide RequiredBefore;
    RequiredMonotone(fs, i, |fs|);
    forall j | 0 <= j < |fs| && j != i && fs[i].htype.Required? && fs[j].htype.Required?
      ensures RequiredBefore(fs, j) != RequiredBefore(fs, i)
    {
      if i < j {
        RequiredMonotone(fs, i, j);
      } else {
        RequiredMonotone(fs, j, i);
      }
    }
  }

  lemma {:induction false} RequiredAt(fs: seq<Field>, n: nat, r: nat) returns (j: nat)
    requires n <= |fs| && r < RequiredBefore(fs, n)
    ensures j < n && fs[j].htype.Required? && RequiredBefore(fs, j) == r
    decreases n
  {
    if r < RequiredBefore(fs, n - 1) {
      j := RequiredAt(fs, n - 1, r);
    } else {
      j := n - 1;
    }
  }

  /** The bits decide: the first `count` marks are set exactly when every tracked required field was met. */
  lemma MarksDecide(fs: seq<Field>, marks: set<nat>, seen: set<nat>, count: nat)
    requires MarksAgree(fs, marks, seen)
    requires count == if RequiredBefore(fs, |fs|) > PB_MAX_REQUIRED_FIELDS then PB_MAX_REQUIRED_FIELDS else RequiredBefore(fs, |fs|)
    ensures RequiredMet(fs, seen) <==> forall r :: 0 <= r < count ==> r in marks
    ensures forall r :: r in marks ==> r < count
  {
    hide RequiredBefore;
    if RequiredMet(fs, seen) {
      forall r | 0 <= r < count
        ensures r in marks
      {
        var j := RequiredAt(fs, |fs|, r);
      }
    }
    forall j | 0 <= j < |fs| && fs[j].htype.Required? && RequiredBefore(fs, j) < PB_MAX_REQUIRED_FIELDS
      ensures RequiredBefore(fs, j) < count
    {
      RequiredMonotone(fs, j, |fs|);
    }
  }
}
