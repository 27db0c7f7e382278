/** The scalar layer of the wire format: varints, zigzag and little-endian fixed-width integers. */
module PbWire {
  import opened Prelude
  import opened Bits

  const TWO31 := 0x8000_0000
  const TWO32 := 0x1_0000_0000
  const TWO63 := 0x8000_0000_0000_0000
  const TWO64 := 0x1_0000_0000_0000_0000

  // ---------------------------------------------------------------- varints

  /** The base-128 form of `v`, least significant group first. */
  function EncVarint(v: nat): (b: seq<u8>)
    ensures |b| > 0
    decreases v
  {
    if v < 128 then [v] else [v % 128 + 128] + EncVarint(v / 128)
  }

  /** The length of the varint that `s` starts with, or 0 if every byte of `s` has its top bit set. */
  function VarintLen(s: seq<u8>): (n: nat)
    ensures n <= |s|
    ensures n > 0 ==> s[n - 1] < 128
    ensures forall k :: 0 <= k < n - 1 ==> s[k] >= 128
    ensures n == 0 ==> forall k :: 0 <= k < |s| ==> s[k] >= 128
  {
    if s == [] then 0
    else if s[0] < 128 then 1
    else
      var n := VarintLen(s[1..]);
      assert forall k :: 0 < k < |s| ==> s[k] == s[1..][k - 1];
      if n == 0 then 0 else n + 1
  }

  /** The number whose 7-bit groups are the low bits of the bytes of `s`. */
  function Payload(s: seq<u8>): nat {
    if s == [] then 0 else s[0] % 128 + 128 * Payload(s[1..])
  }

  /** The 64-bit reader: at most ten bytes, the value reduced to 64 bits. */
  function Varint64(s: seq<u8>): (r: Read<nat>)
    ensures r.Got? ==> |r.rest| < |s| && r.value < TWO64
  {
    var n := VarintLen(s);
    if n == 0 || n > 10 then Fail else Got(Payload(s[..n]) % TWO64, s[n..])
  }

  /** The 32-bit reader. The shift counter is an 8-bit integer, so it wraps on very long input. */
  function Varint32(s: seq<u8>): (r: Read<nat>)
    ensures r.Got? ==> |r.rest| < |s|
  {
    if s == [] then Fail
    else if s[0] < 128 then Got(s[0], s[1..])
    else Varint32Loop(s[1..], 7, s[0] % 128)
  }

  function Varint32Loop(s: seq<u8>, bitpos: nat, result: nat): (r: Read<nat>)
    ensures r.Got? ==> |r.rest| < |s|
  {
    if s == [] then Fail
    else
      var b := s[0];
      if Overflows32(b, bitpos, result) then Fail
      else
        var result' := Accumulate32(b % 128, bitpos, result);
        var bitpos' := (bitpos + 7) % 256;
        if b >= 128 then Varint32Loop(s[1..], bitpos', result')
        else if bitpos' == 35 && (b / 16) % 8 != 0 then Fail
        else Got(result', s[1..])
  }

  /** A byte past bit 32 may only be empty, or the sign extension of a negative 32-bit result. */
  predicate Overflows32(b: u8, bitpos: nat, result: nat) {
    && bitpos >= 32
    && b % 128 != 0
    && (result < TWO31 || b != (if bitpos < 63 then 0xFF else 0x01))
  }

  function Accumulate32(group: nat, bitpos: nat, result: nat): nat {
    if bitpos >= 32 then result else Or(result, (group * Pow2(bitpos)) % TWO32)
  }

  /** What follows a varint does not change how it is read. */
  lemma {:induction false} VarintLenPrefix(s: seq<u8>, t: seq<u8>)
    requires VarintLen(s) > 0
    ensures VarintLen(s + t) == VarintLen(s)
  {
    if s[0] >= 128 {
      assert (s + t)[1..] == s[1..] + t;
      VarintLenPrefix(s[1..], t);
    }
  }

  lemma {:induction false} EncVarintPayload(v: nat)
    ensures Payload(EncVarint(v)) == v
    decreases v
  {
    if v >= 128 {
      EncVarintPayload(v / 128);
      PayloadCons(v % 128 + 128, EncVarint(v / 128));
    }
  }

  lemma {:induction false} EncVarintTerminated(v: nat, t: seq<u8>)
    ensures VarintLen(EncVarint(v) + t) == |EncVarint(v)|
    decreases v
  {
    hide VarintLen;
    if v < 128 {
      VarintLenOne(v, t);
    } else {
      var tail := EncVarint(v / 128);
      EncVarintTerminated(v / 128, t);
      VarintLenCons(v % 128 + 128, tail + t);
      assert EncVarint(v) + t == [v % 128 + 128] + (tail + t);
    }
  }

  lemma PayloadCons(b: u8, s: seq<u8>)
    ensures Payload([b] + s) == b % 128 + 128 * Payload(s)
  {
    assert ([b] + s)[1..] == s;
  }

  lemma {:induction false} PayloadSnoc(p: seq<u8>, b: u8)
    ensures Payload(p + [b]) == Payload(p) + b % 128 * Pow2(7 * |p|)
    ensures Payload(p) < Pow2(7 * |p|)
    decreases |p|
  {
    hide Pow2;
    if p == [] {
      assert Pow2(0) == 1 by { PowersOfTwo(); }
      assert (p + [b])[1..] == [];
    } else {
      var q := p[1..];
      assert (p + [b])[1..] == q + [b];
      PayloadSnoc(q, b);
      PowersOfTwo();
      Pow2Sum(7, 7 * |q|);
      assert 7 + 7 * |q| == 7 * |p|;
      var x := Pow2(7 * |q|);
      assert 128 * (b % 128 * x) == b % 128 * (128 * x);
    }
  }

  lemma PowersOfTwo()
    ensures Pow2(0) == 1 && Pow2(4) == 16 && Pow2(7) == 128
  {
  }

  lemma VarintLenOne(b: u8, s: seq<u8>)
    requires b < 128
    ensures VarintLen([b] + s) == 1
  {
  }

  lemma VarintLenCons(b: u8, s: seq<u8>)
    requires b >= 128
    ensures VarintLen([b] + s) == if VarintLen(s) == 0 then 0 else VarintLen(s) + 1
  {
    assert ([b] + s)[1..] == s;
  }

  /** Ten bytes hold every 64-bit value. */
  lemma EncVarintLen(v: nat)
    requires v < TWO64
    ensures |EncVarint(v)| <= 10
  {
    EncVarintLenBound(v, TWO63, 10);
  }

  lemma {:induction false} EncVarintLenBound(v: nat, p: nat, n: nat)
    requires 1 <= n <= 10
    requires p == [1, 128, 0x4000, 0x20_0000, 0x1000_0000, 0x8_0000_0000, 0x400_0000_0000,
                   0x2_0000_0000_0000, 0x100_0000_0000_0000, TWO63][n - 1]
    requires v < 128 * p
    ensures |EncVarint(v)| <= n
  {
    if v >= 128 {
      EncVarintLenBound(v / 128, p / 128, n - 1);
    }
  }

  /** The 64-bit reader undoes the writer on every 64-bit value, whatever follows. */
  lemma Varint64OfEnc(v: nat, t: seq<u8>)
    requires v < TWO64
    ensures Varint64(EncVarint(v) + t) == Got(v, t)
  {
    hide EncVarint, Payload, VarintLen;
    EncVarintPayload(v);
    EncVarintTerminated(v, t);
    EncVarintLen(v);
    var e := EncVarint(v);
    assert (e + t)[..|e|] == e && (e + t)[|e|..] == t;
  }

  /** Reading 32 bits of a value below 2^63 gives it back, or fails exactly when it needs more than 32 bits. */
  lemma Varint32OfEnc(v: nat, t: seq<u8>)
    requires v < TWO63
    ensures Varint32(EncVarint(v) + t) == if v < TWO32 then Got(v, t) else Fail
  {
    hide Or, Varint32Loop;
    var s := EncVarint(v) + t;
    if v < 128 {
      assert s[1..] == t;
    } else {
      assert s[1..] == EncVarint(v / 128) + t;
      SecondGroup(v / 128, t, v % 128);
    }
  }

  lemma SecondGroup(w: nat, t: seq<u8>, r: nat)
    requires r < 0x80 && 1 <= w < 0x100_0000_0000_0000
    ensures Varint32Loop(EncVarint(w) + t, 7, r) == if w * 0x80 + r < TWO32 then Got(r + w * 0x80, t) else Fail
  {
    hide Or, Varint32Loop, Accumulate32, EncVarint;
    LoopStep(w, t, 7, r);
    var high, low := w / 128, w % 128;
    LowGroup(low, 7, 0x80, r);
    if w >= 128 {
      ThirdGroup(high, t, r + low * 0x80);
    }
  }

  lemma ThirdGroup(w: nat, t: seq<u8>, r: nat)
    requires r < 0x4000 && 1 <= w < 0x2_0000_0000_0000
    ensures Varint32Loop(EncVarint(w) + t, 14, r) == if w * 0x4000 + r < TWO32 then Got(r + w * 0x4000, t) else Fail
  {
    hide Or, Varint32Loop, Accumulate32, EncVarint;
    LoopStep(w, t, 14, r);
    var high, low := w / 128, w % 128;
    LowGroup(low, 14, 0x4000, r);
    if w >= 128 {
      FourthGroup(high, t, r + low * 0x4000);
    }
  }

  lemma FourthGroup(w: nat, t: seq<u8>, r: nat)
    requires r < 0x20_0000 && 1 <= w < 0x400_0000_0000
    ensures Varint32Loop(EncVarint(w) + t, 21, r) == if w * 0x20_0000 + r < TWO32 then Got(r + w * 0x20_0000, t) else Fail
  {
    hide Or, Varint32Loop, Accumulate32, EncVarint;
    LoopStep(w, t, 21, r);
    var high, low := w / 128, w % 128;
    Powers();
    LowGroup(low, 21, 0x20_0000, r);
    if w >= 128 {
      FifthGroup(high, t, r + low * 0x20_0000);
    }
  }

  lemma FifthGroup(w: nat, t: seq<u8>, r: nat)
    requires r < 0x1000_0000 && 1 <= w < 0x8_0000_0000
    ensures Varint32Loop(EncVarint(w) + t, 28, r)
         == if w * 0x1000_0000 + r < TWO32 then Got(r + w * 0x1000_0000, t) else Fail
  {
    hide Or, Varint32Loop, Accumulate32, EncVarint;
    LoopStep(w, t, 28, r);
    if w >= 128 {
      var high := w / 128;
      Varint32LoopPast(high, t, 35, Accumulate32(w % 128, 28, r));
    } else if w < 16 {
      Powers();
      LowGroup(w, 28, 0x1000_0000, r);
    }
  }

  lemma LoopStep(w: nat, t: seq<u8>, bitpos: nat, r: nat)
    requires bitpos < 32
    ensures Varint32Loop(EncVarint(w) + t, bitpos, r)
         == var r' := Accumulate32(w % 128, bitpos, r);
            if w >= 128 then Varint32Loop(EncVarint(w / 128) + t, bitpos + 7, r')
            else if bitpos == 28 && w >= 16 then Fail
            else Got(r', t)
  {
    hide Or, Varint32Loop, Accumulate32;
    if w < 128 {
      LoopByte(w, t, bitpos, r);
    } else {
      var tail := EncVarint(w / 128) + t;
      assert EncVarint(w) + t == [w % 128 + 128] + tail;
      LoopByte(w % 128 + 128, tail, bitpos, r);
    }
  }

  lemma LoopByte(b: u8, s: seq<u8>, bitpos: nat, r: nat)
    requires bitpos < 32
    ensures Varint32Loop([b] + s, bitpos, r)
         == var r' := Accumulate32(b % 128, bitpos, r);
            if b >= 128 then Varint32Loop(s, bitpos + 7, r')
            else if bitpos == 28 && b >= 16 then Fail
            else Got(r', s)
  {
    hide Or, Pow2, Accumulate32;
    assert ([b] + s)[0] == b && ([b] + s)[1..] == s;
  }

  lemma LowGroup(g: nat, bitpos: nat, p: nat, r: nat)
    requires bitpos in {7, 14, 21, 28}
    requires p == Pow2(bitpos) && r < p && g * p < TWO32
    ensures Accumulate32(g, bitpos, r) == r + g * p
  {
    hide Or, Pow2;
    var shifted := g * p;
    assert shifted % TWO32 == shifted;
    OrDisjoint(r, g, bitpos);
  }

  lemma Powers()
    ensures Pow2(21) == 0x20_0000 && Pow2(28) == 0x1000_0000
  {
    assert Pow2(7) == 128;
    assert Pow2(14) == 0x4000;
    assert Pow2(21) == 0x20_0000;
  }

  /** Past bit 35 no written value below 2^63 is accepted: its last byte is neither empty nor a sign extension. */
  lemma {:induction false} Varint32LoopPast(w: nat, t: seq<u8>, bitpos: nat, r: nat)
    requires bitpos in {35, 42, 49, 56}
    requires bitpos == 35 ==> 1 <= w < 0x1000_0000
    requires bitpos == 42 ==> 1 <= w < 0x20_0000
    requires bitpos == 49 ==> 1 <= w < 0x4000
    requires bitpos == 56 ==> 1 <= w < 0x80
    ensures Varint32Loop(EncVarint(w) + t, bitpos, r) == Fail
    decreases w
  {
    var s := EncVarint(w) + t;
    if w >= 128 {
      assert s[1..] == EncVarint(w / 128) + t;
      Varint32LoopPast(w / 128, t, bitpos + 7, r);
    }
  }

  lemma {:induction false} Varint32Prefix(s: seq<u8>, t: seq<u8>)
    requires Varint32(s).Got?
    ensures Varint32(s + t) == Got(Varint32(s).value, Varint32(s).rest + t)
  {
    assert (s + t)[1..] == s[1..] + t;
    if s[0] >= 128 {
      Varint32LoopPrefix(s[1..], t, 7, s[0] % 128);
    }
  }

  lemma {:induction false} Varint32LoopPrefix(s: seq<u8>, t: seq<u8>, bitpos: nat, result: nat)
    requires Varint32Loop(s, bitpos, result).Got?
    ensures var r := Varint32Loop(s, bitpos, result);
            Varint32Loop(s + t, bitpos, result) == Got(r.value, r.rest + t)
  {
    assert (s + t)[1..] == s[1..] + t;
    if s[0] >= 128 {
      Varint32LoopPrefix(s[1..], t, (bitpos + 7) % 256, Accumulate32(s[0] % 128, bitpos, result));
    }
  }

  lemma Varint64Prefix(s: seq<u8>, t: seq<u8>)
    requires Varint64(s).Got?
    ensures Varint64(s + t) == Got(Varint64(s).value, Varint64(s).rest + t)
  {
    VarintLenPrefix(s, t);
    var n := VarintLen(s);
    assert (s + t)[..n] == s[..n] && (s + t)[n..] == s[n..] + t;
  }

  // ---------------------------------------------------------------- signed values

  /** The conversions between a signed value and its two's complement 64-bit word. */
  function ToWord64(i: int): (w: nat)
    ensures w < TWO64
  {
    i % TWO64
  }

  function ToSigned64(w: nat): int
  {
    if w % TWO64 < TWO63 then w % TWO64 else w % TWO64 - TWO64
  }

  function ToSigned32(w: nat): int
  {
    if w % TWO32 < TWO31 then w % TWO32 else w % TWO32 - TWO32
  }

  /** Shift left, and complement when negative: all in 64-bit arithmetic. */
  function ZigZag(i: int): (z: nat)
    ensures z < TWO64
  {
    var shifted := (ToWord64(i) * 2) % TWO64;
    if i < 0 then TWO64 - 1 - shifted else shifted
  }

  function UnZigZag(z: nat): int
    requires z < TWO64
  {
    if z % 2 == 1 then ToSigned64(TWO64 - 1 - z / 2) else ToSigned64(z / 2)
  }

  lemma ZigZagRoundTrip(i: int)
    requires -TWO63 <= i < TWO63
    ensures ZigZag(i) == if i < 0 then -2 * i - 1 else 2 * i
    ensures UnZigZag(ZigZag(i)) == i
  {
    if i < 0 {
      assert ToWord64(i) == TWO64 + i;
      assert (ToWord64(i) * 2) % TWO64 == (2 * i) % TWO64;
    }
  }

  // ---------------------------------------------------------------- fixed width

  function EncFixed(v: nat, n: nat): (b: seq<u8>)
    ensures |b| == n
  {
    if n == 0 then [] else [v % 256] + EncFixed(v / 256, n - 1)
  }

  function LittleEndian(b: seq<u8>): nat {
    if b == [] then 0 else b[0] + 256 * LittleEndian(b[1..])
  }

  function Fixed(s: seq<u8>, n: nat): (r: Read<nat>)
    ensures r.Got? ==> |r.rest| + n == |s|
  {
    if |s| < n then Fail else Got(LittleEndian(s[..n]), s[n..])
  }

  function Pow256(n: nat): (p: nat)
    ensures p > 0
  {
    if n == 0 then 1 else 256 * Pow256(n - 1)
  }

  lemma {:induction false} LittleEndianOfEnc(v: nat, n: nat)
    requires v < Pow256(n)
    ensures LittleEndian(EncFixed(v, n)) == v
  {
    if n > 0 {
      assert v / 256 < Pow256(n - 1);
      LittleEndianOfEnc(v / 256, n - 1);
      assert EncFixed(v, n)[1..] == EncFixed(v / 256, n - 1);
    }
  }

  lemma FixedOfEnc(v: nat, n: nat, t: seq<u8>)
    requires v < Pow256(n)
    ensures Fixed(EncFixed(v, n) + t, n) == Got(v, t)
  {
    LittleEndianOfEnc(v, n);
    var e := EncFixed(v, n);
    assert (e + t)[..n] == e && (e + t)[n..] == t;
  }
}
