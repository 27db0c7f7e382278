/**
 Exactly what the 32-bit varint reader accepts. It checks one byte at a time, so besides the numbers that fit
 and their sign extensions some others get through, cut to 32 bits.
 */
module PbVarint32 {
  import opened Prelude
  import opened Bits
  import opened PbWire

  /** The 8-bit shift counter starts over at the 38th byte; no varint of the format has more than ten. */
  const MAX_COUNTED := 37

  /** The first five bytes, cut to 32 bits. */
  function Low32(s: seq<u8>, n: nat): (r: nat)
    requires n <= |s|
    ensures r < TWO32
  {
    Payload(s[..if n < 5 then n else 5]) % TWO32
  }

  /** A byte past the fifth is let through if it is empty, or if it could belong to a sign extension. */
  predicate LetThrough(low: nat, b: u8, k: nat) {
    b % 128 == 0 || (low >= TWO31 && b == if k < 9 then 0xFF else 0x01)
  }

  predicate Accepted(s: seq<u8>, n: nat)
    requires n <= |s|
  {
    (n == 5 ==> s[4] < 16) && forall k :: 5 <= k < n ==> LetThrough(Low32(s, n), s[k], k)
  }

  /** On every byte string that starts with a complete varint of at most 37 bytes. */
  lemma Varint32Iff(s: seq<u8>)
    requires 0 < VarintLen(s) <= MAX_COUNTED
    ensures var n := VarintLen(s);
            Varint32(s) == if Accepted(s, n) then Got(Low32(s, n), s[n..]) else Fail
  {
    hide Varint32Loop, VarintLen, Low32, LetThrough;
    var n := VarintLen(s);
    OneByte(s);
    if s[0] < 128 {
      assert n == 1;
    } else {
      assert n > 1;
      Head(s, n, 1, s[0] % 128);
    }
  }

  lemma OneByte(s: seq<u8>)
    requires s != []
    ensures Payload(s[..1]) == s[0] % 128
    ensures Low32(s, 1) == s[0] % 128
  {
    assert s[..1][1..] == [];
  }

  lemma {:induction false} Head(s: seq<u8>, n: nat, k: nat, r: nat)
    requires n == VarintLen(s) <= MAX_COUNTED && 1 <= k < n && k <= 5 && r == Payload(s[..k]) % TWO32
    ensures Varint32Loop(s[k..], 7 * k, r) == if Accepted(s, n) then Got(Low32(s, n), s[n..]) else Fail
    decreases 5 - k
  {
    hide VarintLen, Payload, LetThrough, Accumulate32;
    if k == 5 {
      Tail(s, n, 5, r);
    } else {
      var r' := Payload(s[..k + 1]) % TWO32;
      AccumulateByte32(s, k, r);
      LoopOnce(s, n, k, r);
      if k + 1 < n {
        Head(s, n, k + 1, r');
      }
    }
  }

  /** One turn of the loop within the first five bytes. */
  lemma LoopOnce(s: seq<u8>, n: nat, k: nat, r: nat)
    requires n == VarintLen(s) && 1 <= k < n && k < 5
    ensures Varint32Loop(s[k..], 7 * k, r)
         == var r' := Accumulate32(s[k] % 128, 7 * k, r);
            if k + 1 < n then Varint32Loop(s[k + 1..], 7 * (k + 1), r')
            else if k == 4 && s[4] >= 16 then Fail
            else Got(r', s[n..])
  {
    hide VarintLen, Accumulate32;
    assert s[k..][1..] == s[k + 1..];
  }

  lemma AccumulateByte32(s: seq<u8>, k: nat, r: nat)
    requires 1 <= k < 5 && k < |s| && r == Payload(s[..k]) % TWO32
    ensures Accumulate32(s[k] % 128, 7 * k, r) == Payload(s[..k + 1]) % TWO32
  {
    hide Or, Pow2, Payload, Accumulate32;
    var x, g := Payload(s[..k]), s[k] % 128;
    assert s[..k + 1] == s[..k] + [s[k]];
    PayloadSnoc(s[..k], s[k]);
    LowPowers();
    var p := Pow2(7 * k);
    assert x < p && r == x;
    if k < 4 {
      SmallGroup(g, p);
      LowGroup(g, 7 * k, p, x);
    } else {
      TopGroup(g, x);
    }
  }

  lemma LowPowers()
    ensures Pow2(7) == 0x80 && Pow2(14) == 0x4000 && Pow2(21) == 0x20_0000 && Pow2(28) == 0x1000_0000
  {
    assert Pow2(7) == 128;
    assert Pow2(14) == 0x4000;
    Powers();
  }

  lemma SmallGroup(g: nat, p: nat)
    requires g < 128 && p in {0x80, 0x4000, 0x20_0000}
    ensures g * p < TWO32 && p + g * p < TWO32
  {
  }

  /** Of the fifth group four bits are left. */
  lemma TopGroup(g: nat, x: nat)
    requires g < 128 && x < 0x1000_0000
    ensures Accumulate32(g, 28, x) == (x + g * 0x1000_0000) % TWO32
  {
    hide Or, Pow2;
    LowPowers();
    var low := g % 16;
    assert (g * 0x1000_0000) % TWO32 == low * 0x1000_0000;
    OrDisjoint(x, low, 28);
  }

  /** Past the fifth byte nothing is added; every byte must be let through. */
  lemma {:induction false} Tail(s: seq<u8>, n: nat, k: nat, r: nat)
    requires n == VarintLen(s) <= MAX_COUNTED && 5 <= k < n && r < TWO32
    ensures Varint32Loop(s[k..], 7 * k, r)
         == if forall j :: k <= j < n ==> LetThrough(r, s[j], j) then Got(r, s[n..]) else Fail
    decreases n - k
  {
    hide VarintLen, Varint32Loop, LetThrough;
    TailOnce(s, n, k, r);
    if k + 1 < n {
      Tail(s, n, k + 1, r);
    }
  }

  lemma TailOnce(s: seq<u8>, n: nat, k: nat, r: nat)
    requires n == VarintLen(s) <= MAX_COUNTED && 5 <= k < n && r < TWO32
    ensures Varint32Loop(s[k..], 7 * k, r)
         == if !LetThrough(r, s[k], k) then Fail
            else if k + 1 < n then Varint32Loop(s[k + 1..], 7 * (k + 1), r)
            else Got(r, s[n..])
  {
    hide VarintLen, Or, Pow2, LetThrough, Overflows32;
    assert s[k..][0] == s[k] && s[k..][1..] == s[k + 1..];
    LetThroughIff(r, s[k], k);
    assert 7 * k + 7 < 256 ==> (7 * k + 7) % 256 == 7 * k + 7;
  }

  lemma LetThroughIff(r: nat, b: u8, k: nat)
    requires 5 <= k
    ensures LetThrough(r, b, k) <==> !Overflows32(b, 7 * k, r)
  {
  }

  // ---------------------------------------------------------------- what is read

  lemma {:induction false} PayloadConcat(a: seq<u8>, b: seq<u8>)
    ensures Payload(a + b) == Payload(a) + Pow2(7 * |a|) * Payload(b)
  {
    hide Pow2;
    if a == [] {
      PowersOfTwo();
      assert a + b == b;
    } else {
      var q := a[1..];
      assert (a + b)[1..] == q + b;
      PayloadConcat(q, b);
      PowersOfTwo();
      Pow2Sum(7, 7 * |q|);
      assert 7 + 7 * |q| == 7 * |a|;
      var x := Pow2(7 * |q|);
      assert 128 * (x * Payload(b)) == 128 * x * Payload(b);
    }
  }

  /** Nothing above the low 32 bits: the number is what is read. */
  predicate Small(s: seq<u8>, n: nat)
    requires n <= |s|
  {
    (n >= 5 ==> s[4] % 128 < 16) && forall k :: 5 <= k < n ==> s[k] % 128 == 0
  }

  /** All ones above a negative 32-bit number, up to 64 bits. */
  predicate SignExtended(s: seq<u8>, n: nat)
    requires n <= |s|
  {
    n == 10 && s[4] % 128 >= 112 && s[9] == 1 && forall k :: 5 <= k < 9 ==> s[k] % 128 == 127
  }

  /** The first five groups: what is kept, and the three bits that are dropped. */
  lemma FiveBytes(s: seq<u8>, n: nat)
    requires 5 <= n <= |s|
    ensures Payload(s[..5]) == Low32(s, n) + s[4] % 128 / 16 * TWO32
  {
    hide Payload, Pow2;
    assert s[..5] == s[..4] + [s[4]];
    PayloadSnoc(s[..4], s[4]);
    LowPowers();
    DropBits(Payload(s[..4]), s[4] % 128);
  }

  lemma DropBits(x: nat, g: nat)
    requires x < 0x1000_0000 && g < 128
    ensures x + g * 0x1000_0000 == (x + g * 0x1000_0000) % TWO32 + g / 16 * TWO32
  {
    assert g == g / 16 * 16 + g % 16;
    ModUnique(x + g * 0x1000_0000, TWO32, g / 16, x + g % 16 * 0x1000_0000);
  }

  lemma Pow35()
    ensures Pow2(35) == 0x8_0000_0000
  {
    LowPowers();
    Pow2Sum(7, 28);
  }

  lemma {:induction false} AllEmpty(t: seq<u8>)
    ensures Payload(t) == 0 <==> forall i :: 0 <= i < |t| ==> t[i] % 128 == 0
    decreases |t|
  {
    if t != [] {
      AllEmpty(t[1..]);
      assert t == [t[0]] + t[1..];
    }
  }

  lemma {:induction false} AllOnes(t: seq<u8>)
    ensures Payload(t) < Pow2(7 * |t|)
    ensures Payload(t) == Pow2(7 * |t|) - 1 <==> forall i :: 0 <= i < |t| ==> t[i] % 128 == 127
    decreases |t|
  {
    hide Pow2;
    PowersOfTwo();
    if t != [] {
      AllOnes(t[1..]);
      Pow2Sum(7, 7 * (|t| - 1));
      assert t == [t[0]] + t[1..];
    }
  }

  /** The groups above the fifth are those of a 64-bit sign extension. */
  lemma OnesAbove(t: seq<u8>)
    requires |t| <= 5
    ensures Payload(t) == 0x1FFF_FFFF <==> |t| == 5 && t[4] % 128 == 1 && forall i :: 0 <= i < 4 ==> t[i] % 128 == 127
  {
    hide Pow2, Payload;
    LowPowers();
    AllOnes(t);
    if |t| <= 4 {
      Pow2Monotone(7 * |t|, 28);
    } else {
      AllOnes(t[..4]);
      assert t == t[..4] + [t[4]];
      PayloadSnoc(t[..4], t[4]);
    }
  }

  /**
   Of a varint of at most ten bytes that is accepted, the value is the number that is encoded exactly when there
   is nothing above its low 32 bits; and the number is the 64-bit sign extension of a negative value exactly
   when all above them are ones. Everything else that is accepted is read as a different number.
   */
  lemma ReadValue(s: seq<u8>)
    requires 0 < VarintLen(s) <= 10 && Accepted(s, VarintLen(s))
    ensures var n := VarintLen(s); var low := Low32(s, n);
            && (Payload(s[..n]) == low <==> Small(s, n))
            && (low >= TWO31 && Payload(s[..n]) == TWO64 - TWO32 + low <==> SignExtended(s, n))
  {
    hide VarintLen, Payload, Low32, Pow2, SignExtended, Small, LetThrough;
    var n := VarintLen(s);
    if n < 5 {
      ShortValue(s, n);
    } else {
      var rest := s[5..n];
      assert s[..n] == s[..5] + rest;
      PayloadConcat(s[..5], rest);
      FiveBytes(s, n);
      Pow35();
      SmallAbove(s, n);
      SignAbove(s, n);
      Above(Low32(s, n), s[4] % 128 / 16, Payload(rest));
    }
  }

  lemma ShortValue(s: seq<u8>, n: nat)
    requires n == VarintLen(s) && 0 < n < 5
    ensures Payload(s[..n]) == Low32(s, n)
    ensures Small(s, n) && !SignExtended(s, n) && Payload(s[..n]) < 0x1000_0000
  {
    hide Pow2, Payload, VarintLen;
    AllOnes(s[..n]);
    LowPowers();
    Pow2Monotone(7 * n, 28);
  }

  lemma Above(low: nat, dropped: nat, high: nat)
    requires low < TWO32 && dropped < 8
    ensures low + dropped * TWO32 + 0x8_0000_0000 * high == low <==> dropped == 0 && high == 0
    ensures low + dropped * TWO32 + 0x8_0000_0000 * high == TWO64 - TWO32 + low <==> dropped == 7 && high == 0x1FFF_FFFF
  {
    assert low + dropped * TWO32 + 0x8_0000_0000 * high == low + (dropped + 8 * high) * TWO32;
  }

  lemma SmallAbove(s: seq<u8>, n: nat)
    requires 5 <= n <= |s|
    ensures Small(s, n) <==> s[4] % 128 / 16 == 0 && Payload(s[5..n]) == 0
  {
    hide Payload;
    var rest := s[5..n];
    AllEmpty(rest);
    assert forall k :: 5 <= k < n ==> s[k] == rest[k - 5];
    assert forall i :: 0 <= i < |rest| ==> rest[i] == s[i + 5];
  }

  lemma SignAbove(s: seq<u8>, n: nat)
    requires 5 <= n <= 10 && n == VarintLen(s) && Accepted(s, n)
    ensures SignExtended(s, n) <==> s[4] % 128 / 16 == 7 && Payload(s[5..n]) == 0x1FFF_FFFF
    ensures SignExtended(s, n) ==> Low32(s, n) >= TWO31
  {
    hide Payload, VarintLen, Low32;
    var rest := s[5..n];
    OnesAbove(rest);
    assert forall k :: 5 <= k < n ==> s[k] == rest[k - 5];
    assert forall i :: 0 <= i < |rest| ==> rest[i] == s[i + 5];
    if SignExtended(s, n) {
      assert LetThrough(Low32(s, n), s[9], 9);
    }
  }

  // ---------------------------------------------------------------- what an encoder writes

  lemma {:induction false} EncDigit(v: nat, k: nat)
    requires k < |EncVarint(v)|
    ensures EncVarint(v)[k] == v / Pow2(7 * k) % 128 + (if k + 1 < |EncVarint(v)| then 128 else 0)
    decreases k
  {
    hide Pow2;
    PowersOfTwo();
    if k > 0 {
      EncDigit(v / 128, k - 1);
      Pow2Sum(7, 7 * (k - 1));
      DivDiv(v, 128, Pow2(7 * (k - 1)));
      assert EncVarint(v)[k] == EncVarint(v / 128)[k - 1];
      assert Pow2(7 * k) == 128 * Pow2(7 * (k - 1));
    }
  }

  /** A word that is written in ten bytes and got past the check: bit 31 set, and every group above all zeros or all ones. */
  predicate Slips(v: nat) {
    && TWO63 <= v < TWO64 && v / TWO31 % 2 == 1
    && forall k :: 5 <= k < 9 ==> v / Pow2(7 * k) % 128 in {0, 127}
  }

  /** Of all words that an encoder writes, whatever follows: those of 32 bits are read back, and those that slip are cut. */
  lemma Varint32OfWord(v: nat, t: seq<u8>)
    requires v < TWO64
    ensures Varint32(EncVarint(v) + t) == if v < TWO32 || Slips(v) then Got(v % TWO32, t) else Fail
  {
    hide Varint32, EncVarint, VarintLen, Accepted, Payload;
    if v < TWO63 {
      Varint32OfEnc(v, t);
    } else {
      var s := EncVarint(v) + t;
      EncVarintTerminated(v, t);
      EncVarintLen(v);
      TenBytes(v);
      Varint32Iff(s);
      WordAccepted(v, t);
      assert s[10..] == t;
    }
  }

  lemma TenBytes(v: nat)
    requires TWO63 <= v < TWO64
    ensures |EncVarint(v)| == 10
  {
    hide EncVarint;
    EncVarintLen(v);
    if |EncVarint(v)| < 10 {
      ShortWord(v, |EncVarint(v)|);
    }
  }

  lemma {:induction false} ShortWord(v: nat, n: nat)
    requires |EncVarint(v)| <= n
    ensures v < Pow2(7 * n)
    ensures n < 10 ==> v < TWO63
    decreases n
  {
    hide Pow2;
    if n > 0 {
      if v >= 128 {
        ShortWord(v / 128, n - 1);
      }
      PowersOfTwo();
      Pow2Sum(7, 7 * (n - 1));
    }
    if n < 10 {
      Pow63();
      Pow2Monotone(7 * n, 63);
    }
  }

  lemma Pow63()
    ensures Pow2(63) == TWO63
  {
    LowPowers();
    Pow35();
    Pow2Sum(28, 35);
  }

  /** The bytes of a ten-byte word are let through exactly when the word slips. */
  lemma WordAccepted(v: nat, t: seq<u8>)
    requires TWO63 <= v < TWO64 && |EncVarint(v)| == 10
    ensures var s := EncVarint(v) + t; Low32(s, 10) == v % TWO32 && (Accepted(s, 10) <==> Slips(v))
  {
    hide EncVarint, Payload, Low32, Pow2, Or;
    var e := EncVarint(v);
    var s := e + t;
    LowWord(v, t);
    assert v % TWO32 >= TWO31 <==> v / TWO31 % 2 == 1;
    TopByte(v);
    forall k | 5 <= k < 10
      ensures s[k] == v / Pow2(7 * k) % 128 + (if k < 9 then 128 else 0)
    {
      EncDigit(v, k);
    }
    assert s[9] == 1;
    assert forall k :: 5 <= k < 9 ==> (LetThrough(Low32(s, 10), s[k], k) <==>
      s[k] % 128 == 0 || (v % TWO32 >= TWO31 && s[k] == 0xFF));
    assert LetThrough(Low32(s, 10), s[9], 9) <==> v % TWO32 >= TWO31;
  }

  lemma TopByte(v: nat)
    requires TWO63 <= v < TWO64
    ensures v / Pow2(63) % 128 == 1
  {
    hide Pow2;
    Pow63();
  }

  lemma LowWord(v: nat, t: seq<u8>)
    requires |EncVarint(v)| == 10
    ensures Low32(EncVarint(v) + t, 10) == v % TWO32
  {
    hide EncVarint, Payload, Pow2;
    var e := EncVarint(v);
    assert (e + t)[..5] == e[..5];
    assert e == e[..5] + e[5..];
    PayloadConcat(e[..5], e[5..]);
    EncVarintPayload(v);
    Pow35();
    LowMod(Payload(e[..5]), Payload(e[5..]));
  }

  lemma LowMod(x: nat, y: nat)
    ensures (x + 0x8_0000_0000 * y) % TWO32 == x % TWO32
  {
    assert x + 0x8_0000_0000 * y == (x / TWO32 + 8 * y) * TWO32 + x % TWO32;
    ModUnique(x + 0x8_0000_0000 * y, TWO32, x / TWO32 + 8 * y, x % TWO32);
  }

  /** The sign extension of a negative 32-bit number is among the words that slip. */
  lemma NegativeIsRead(i: int, t: seq<u8>)
    requires -TWO31 <= i < 0
    ensures Varint32(EncVarint(ToWord64(i)) + t) == Got(i + TWO32, t)
  {
    hide Varint32, EncVarint, Pow2;
    var v := i + TWO64;
    forall k | 5 <= k < 9
      ensures v / Pow2(7 * k) % 128 == 127
    {
      OnesGroup(v, k);
    }
    Varint32OfWord(v, t);
  }

  lemma OnesGroup(v: nat, k: nat)
    requires TWO64 - TWO31 <= v < TWO64 && 5 <= k < 9
    ensures v / Pow2(7 * k) % 128 == 127
  {
    hide Pow2;
    GroupPowers();
    if k == 5 {
      assert v / 0x8_0000_0000 == 0x1FFF_FFFF;
    } else if k == 6 {
      assert v / 0x400_0000_0000 == 0x3F_FFFF;
    } else if k == 7 {
      assert v / 0x2_0000_0000_0000 == 0x7FFF;
    } else {
      assert v / 0x100_0000_0000_0000 == 0xFF;
    }
  }

  lemma GroupPowers()
    ensures Pow2(35) == 0x8_0000_0000 && Pow2(42) == 0x400_0000_0000
    ensures Pow2(49) == 0x2_0000_0000_0000 && Pow2(56) == 0x100_0000_0000_0000
  {
    hide Pow2;
    Pow35();
    LowPowers();
    Pow2Sum(7, 35);
    Pow2Sum(7, 42);
    Pow2Sum(7, 49);
  }

  /** A word that is no sign extension and yet is read, cut to 32 bits; the 64-bit reader shows which it was. */
  lemma OversizedAccepted()
    ensures var s := EncVarint(0x8000_0000_8000_0000);
            Varint32(s) == Got(0x8000_0000, []) && Varint64(s) == Got(0x8000_0000_8000_0000, [])
  {
    hide Varint32, Varint64, EncVarint, Pow2;
    var v := 0x8000_0000_8000_0000;
    GroupPowers();
    assert forall k :: 5 <= k < 9 ==> v / Pow2(7 * k) % 128 == 0;
    Varint32OfWord(v, []);
    Varint64OfEnc(v, []);
    assert EncVarint(v) + [] == EncVarint(v);
  }
}
