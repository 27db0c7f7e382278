/**
 The RSA premaster secret on the server: padding and version are checked without branching on secret bytes,
 and a random premaster takes the place of a bad one.
 */
module TlsPremaster {
  import opened Prelude

  const PREMASTER_LEN := 48
  const ALL_ONES: bv64 := 0xFFFF_FFFF_FFFF_FFFF

  // ---------------------------------------------------------------- masks over machine words

  function Msb(a: bv64): bv64 {
    0 - (a >> 63)
  }

  function IsZero(a: bv64): bv64 {
    Msb(!a & (a - 1))
  }

  function Equal(a: bv64, b: bv64): bv64 {
    IsZero(a ^ b)
  }

  function Select(mask: bv64, a: bv64, b: bv64): bv64 {
    (mask & a) | (!mask & b)
  }

  function Low8(a: bv64): bv8 {
    (a & 0xFF) as bv8
  }

  lemma MsbMask(a: bv64)
    ensures Msb(a) == if a >= 0x8000_0000_0000_0000 then ALL_ONES else 0
  {
    assert a >> 63 == 0 || a >> 63 == 1;
  }

  /** Each comparison gives all ones or all zeros. */
  lemma IsZeroMask(a: bv64)
    ensures IsZero(a) == if a == 0 then ALL_ONES else 0
  {
    hide Msb;
    MsbMask(!a & (a - 1));
  }

  lemma EqualMask(a: bv64, b: bv64)
    ensures Equal(a, b) == if a == b then ALL_ONES else 0
  {
    hide IsZero;
    IsZeroMask(a ^ b);
  }

  /** With such a mask, selection takes one operand or the other. */
  lemma SelectByMask(a: bv64, b: bv64)
    ensures Select(ALL_ONES, a, b) == a && Select(0, a, b) == b
  {
  }

  function IsZero8(a: bv8): (m: bv8)
    ensures m == if a == 0 then 0xFF else 0
  {
    IsZeroMask(a as bv64);
    Low8(IsZero(a as bv64))
  }

  function Equal8(a: bv8, b: bv8): (m: bv8)
    ensures m == if a == b then 0xFF else 0
  {
    EqualMask(a as bv64, b as bv64);
    Low8(Equal(a as bv64, b as bv64))
  }

  /** The mask is widened with zeros: the low byte is what matters. */
  function Select8(mask: bv8, a: bv8, b: bv8): (c: bv8)
    ensures mask == 0xFF ==> c == a
    ensures mask == 0 ==> c == b
  {
    SelectByMask(a as bv64, b as bv64);
    Low8(Select(mask as bv64, a as bv64, b as bv64))
  }

  // ---------------------------------------------------------------- the plain reading

  /** The first zero byte at or after `i`. */
  function Separator(b: seq<bv8>, i: nat): (s: Option<nat>)
    requires i <= |b|
    ensures s.Some? ==> i <= s.value < |b| && b[s.value] == 0 && forall k :: i <= k < s.value ==> b[k] != 0
    ensures s.None? ==> forall k :: i <= k < |b| ==> b[k] != 0
    decreases |b| - i
  {
    if i == |b| then None else if b[i] == 0 then Some(i) else Separator(b, i + 1)
  }

  /** Encryption padding (section 7.2.2 of RFC 3447): 0, 2, at least eight nonzero bytes, 0, and the message. */
  function Unpad(b: seq<bv8>): Option<seq<bv8>> {
    if |b| < 11 || b[0] != 0 || b[1] != 2 then None
    else match Separator(b, 2)
      case None => None
      case Some(s) => if s < 10 then None else Some(b[s + 1..])
  }

  /** The block holds a premaster of the right length that begins with the client's version. */
  predicate GoodBlock(b: seq<bv8>, major: bv8, minor: bv8) {
    match Unpad(b)
    case None => false
    case Some(m) => |m| == 48 && m[0] == major && m[1] == minor
  }

  /** What the branch-free code looks at, byte by byte. */
  predicate BytesGood(b: seq<bv8>, major: bv8, minor: bv8)
    requires |b| >= 11 + PREMASTER_LEN
  {
    var pad := |b| - PREMASTER_LEN;
    && b[0] == 0 && b[1] == 2
    && (forall i :: 2 <= i < pad - 1 ==> b[i] != 0)
    && b[pad - 1] == 0
    && b[pad] == major && b[pad + 1] == minor
  }

  /** Looking at fixed places is the same as looking for the separator. */
  lemma FixedPlaces(b: seq<bv8>, major: bv8, minor: bv8)
    requires |b| >= 11 + PREMASTER_LEN
    ensures BytesGood(b, major, minor) <==> GoodBlock(b, major, minor)
    ensures GoodBlock(b, major, minor) ==> Unpad(b) == Some(b[|b| - PREMASTER_LEN..])
  {
    var pad := |b| - PREMASTER_LEN;
    var s := Separator(b, 2);
    if BytesGood(b, major, minor) {
      assert s == Some(pad - 1);
    }
    if GoodBlock(b, major, minor) {
      assert s.value == pad - 1;
    }
  }

  // ---------------------------------------------------------------- the branch-free code

  /**
   Replaces the random premaster by the decrypted one when the block is good, and keeps it otherwise. A key
   too small for any padded premaster is refused.
   */
  method SelectPremaster(block: array<bv8>, premaster: array<bv8>, major: bv8, minor: bv8) returns (ok: bool)
    requires premaster.Length == PREMASTER_LEN && block != premaster
    modifies premaster
    ensures ok <==> block.Length >= 59
    ensures !ok ==> premaster[..] == old(premaster[..])
    ensures ok && GoodBlock(block[..], major, minor) ==> Some(premaster[..]) == Unpad(block[..])
    ensures ok && !GoodBlock(block[..], major, minor) ==> premaster[..] == old(premaster[..])
  {
    hide Unpad, GoodBlock, IsZero8, Equal8, Select8;
    if block.Length < 11 + premaster.Length {
      return false;
    }
    var good := PaddingMask(block, major, minor);
    FixedPlaces(block[..], major, minor);
    var pad := block.Length - premaster.Length;
    var i := 0;
    while i < premaster.Length
      invariant 0 <= i <= premaster.Length
      invariant good == 0xFF ==> premaster[..i] == block[pad..pad + i]
      invariant good == 0 ==> premaster[..i] == old(premaster[..i])
      invariant premaster[i..] == old(premaster[i..])
    {
      premaster[i] := Select8(good, block[pad + i], premaster[i]);
      i := i + 1;
    }
    assert premaster[..] == premaster[..i];
    assert block[..][pad..] == block[pad..pad + i];
    return true;
  }

  /** All ones when every byte is as it should be, and all zeros otherwise: every byte is always read. */
  method PaddingMask(block: array<bv8>, major: bv8, minor: bv8) returns (good: bv8)
    requires block.Length >= 11 + PREMASTER_LEN
    ensures good == if BytesGood(block[..], major, minor) then 0xFF else 0
  {
    hide IsZero8, Equal8;
    var pad := block.Length - PREMASTER_LEN;
    good := Equal8(block[0], 0) & Equal8(block[1], 2);
    var i := 2;
    while i < pad - 1
      invariant 2 <= i <= pad - 1
      invariant good == if block[0] == 0 && block[1] == 2 && (forall k :: 2 <= k < i ==> block[k] != 0) then 0xFF else 0
    {
      good := good & !IsZero8(block[i]);
      i := i + 1;
    }
    good := good & IsZero8(block[pad - 1]);
    good := good & Equal8(block[pad], major);
    good := good & Equal8(block[pad + 1], minor);
  }
}
