/** Decoding a concatenation is decoding the first message and then merging the second one into it. */
module PbMerge {
  import opened Prelude
  import opened PbWire
  import opened PbModel

  // ---------------------------------------------------------------- readers only look at what they consume

  lemma TagPrefix(s: seq<u8>, t: seq<u8>)
    requires DecTag(s).Got?
    ensures DecTag(s + t) == Got(DecTag(s).value, DecTag(s).rest + t)
  {
    hide Varint32;
    Varint32Prefix(s, t);
  }

  lemma SkipPrefix(wt: nat, s: seq<u8>, t: seq<u8>)
    requires SkipField(wt, s).Got?
    ensures SkipField(wt, s + t) == Got((), SkipField(wt, s).rest + t)
  {
    hide Varint32, VarintLen;
    if wt == WT_VARINT {
      VarintLenPrefix(s, t);
      assert (s + t)[VarintLen(s)..] == s[VarintLen(s)..] + t;
    } else if wt == WT_STRING {
      Varint32Prefix(s, t);
      var r := Varint32(s);
      assert (r.rest + t)[r.value..] == r.rest[r.value..] + t;
    } else if wt == WT_64BIT {
      assert (s + t)[8..] == s[8..] + t;
    } else {
      assert (s + t)[4..] == s[4..] + t;
    }
  }

  lemma SubstreamPrefix(s: seq<u8>, t: seq<u8>)
    requires Substream(s).Got?
    ensures Substream(s + t) == Got(Substream(s).value, Substream(s).rest + t)
  {
    hide Varint32;
    Varint32Prefix(s, t);
    var r := Varint32(s);
    assert (r.rest + t)[r.value..] == r.rest[r.value..] + t;
    assert (r.rest + t)[..r.value] == r.rest[..r.value];
  }

  lemma FixedPrefix(s: seq<u8>, n: nat, t: seq<u8>)
    requires Fixed(s, n).Got?
    ensures Fixed(s + t, n) == Got(Fixed(s, n).value, Fixed(s, n).rest + t)
  {
    assert (s + t)[..n] == s[..n] && (s + t)[n..] == s[n..] + t;
  }

  lemma ScalarPrefix(l: LType, s: seq<u8>, t: seq<u8>)
    requires Packable(l) && DecScalar(l, s).Got?
    ensures DecScalar(l, s + t) == Got(DecScalar(l, s).value, DecScalar(l, s).rest + t)
  {
    hide Varint64, Fixed, UnZigZag, ToSigned64, ToSigned32;
    match l
    case LFixed32 => FixedPrefix(s, 4, t);
    case LFixed64 => FixedPrefix(s, 8, t);
    case _ => Varint64Prefix(s, t);
  }

  lemma ValuePrefix(l: LType, s: seq<u8>, base: Val, t: seq<u8>)
    requires DecValue(l, s, base).Got?
    ensures DecValue(l, s + t, base) == Got(DecValue(l, s, base).value, DecValue(l, s, base).rest + t)
  {
    hide DecScalar, Varint32, Substream, DecodeNoinit;
    if Packable(l) {
      ScalarPrefix(l, s, t);
    } else if l.LSubmessage? {
      SubstreamPrefix(s, t);
    } else {
      Varint32Prefix(s, t);
      var r := Varint32(s);
      assert r.value <= |r.rest| ==> (r.rest + t)[r.value..] == r.rest[r.value..] + t;
      assert r.value <= |r.rest| ==> (r.rest + t)[..r.value] == r.rest[..r.value];
    }
  }

  lemma FieldPrefix(fs: seq<Field>, i: nat, wt: nat, s: seq<u8>, slots: seq<Slot>, t: seq<u8>)
    requires |fs| == |slots| && i < |fs| && DecField(fs, i, wt, s, slots).Got?
    ensures var r := DecField(fs, i, wt, s, slots);
            DecField(fs, i, wt, s + t, slots) == Got(r.value, r.rest + t)
  {
    hide DecValue, DecPacked, Substream, Store, Base, Items;
    if fs[i].htype.Repeated? && wt == WT_STRING && Packable(fs[i].ltype) {
      SubstreamPrefix(s, t);
    } else {
      ValuePrefix(fs[i].ltype, s, Base(fs[i], slots[i]), t);
    }
  }

  // ---------------------------------------------------------------- the loop

  /**
   If `a` is read to its end, the loop goes on with `b` from the state that `a` left. If a zero tag ended
   `a`, it also ends the concatenation, and `b` is left unread.
   */
  lemma {:induction false} LoopConcat(fs: seq<Field>, a: seq<u8>, b: seq<u8>, d: Dec)
    requires |d.slots| == |fs| && DecLoop(fs, a, d).Stop?
    ensures var r := DecLoop(fs, a, d);
            DecLoop(fs, a + b, d) == if r.zeroTag then Stop(r.d, true, r.rest + b) else DecLoop(fs, b, r.d)
    decreases |a|
  {
    hide DecTag, Find, SkipField, DecField;
    if a == [] {
      assert a + b == b;
    } else {
      TagPrefix(a, b);
      var r := DecTag(a);
      match r.value
      case EndTag =>
      case Tag(tag, wt) =>
        if Find(fs, tag).None? {
          SkipPrefix(wt, r.rest, b);
          LoopConcat(fs, SkipField(wt, r.rest).rest, b, d);
        } else {
          var i := Find(fs, tag).value;
          FieldPrefix(fs, i, wt, r.rest, d.slots, b);
          var f := DecField(fs, i, wt, r.rest, d.slots);
          LoopConcat(fs, f.rest, b, Dec(f.value, d.seen + {i}));
        }
    }
  }

  /** What the loop does to the message does not depend on the fields already met; it only adds to them. */
  lemma {:induction false} LoopSeen(fs: seq<Field>, s: seq<u8>, slots: seq<Slot>, seen: set<nat>, more: set<nat>)
    requires |slots| == |fs|
    ensures var r, r' := DecLoop(fs, s, Dec(slots, seen)), DecLoop(fs, s, Dec(slots, more + seen));
            && (r.Stop? <==> r'.Stop?)
            && (r.Stop? ==> r' == Stop(Dec(r.d.slots, more + r.d.seen), r.zeroTag, r.rest))
    decreases |s|
  {
    hide DecTag, Find, SkipField, DecField;
    if s != [] && DecTag(s).Got? && DecTag(s).value.Tag? {
      var tag, wt, rest := DecTag(s).value.tag, DecTag(s).value.wt, DecTag(s).rest;
      if Find(fs, tag).None? {
        if SkipField(wt, rest).Got? {
          LoopSeen(fs, SkipField(wt, rest).rest, slots, seen, more);
        }
      } else {
        var i := Find(fs, tag).value;
        var f := DecField(fs, i, wt, rest, slots);
        if f.Got? {
          assert more + seen + {i} == more + (seen + {i});
          LoopSeen(fs, f.rest, f.value, seen + {i}, more);
        }
      }
    }
  }

  /**
   Concatenation is merge: if `a` decodes over `m` and is consumed without a zero tag, and `b` then decodes
   over the result, then `a + b` decodes over `m` with the same outcome. The concatenation needs less than
   that: `b` may leave out required fields, since `a` had them all.
   */
  lemma ConcatIsMerge(fs: seq<Field>, a: seq<u8>, b: seq<u8>, m: seq<Slot>)
    requires |m| == |fs|
    requires DecodeNoinit(fs, a, m).Got? && !DecLoop(fs, a, Dec(m, {})).zeroTag
    ensures var ra := DecodeNoinit(fs, a, m);
            var rb := DecodeNoinit(fs, b, ra.value.slots);
            rb.Got? ==>
              var r := DecodeNoinit(fs, a + b, m);
              r.Got? && r.value.slots == rb.value.slots && r.rest == rb.rest
    ensures DecodeNoinit(fs, a + b, m).Got? <==> DecLoop(fs, b, Dec(DecodeNoinit(fs, a, m).value.slots, {})).Stop?
  {
    hide DecLoop;
    var d := Dec(m, {});
    var da := DecLoop(fs, a, d).d;
    LoopConcat(fs, a, b, d);
    LoopSeen(fs, b, da.slots, {}, da.seen);
    assert da.seen + {} == da.seen;
  }

  /** The stated exception: after a zero tag the second message is not read at all. */
  lemma ZeroTagStops(fs: seq<Field>, a: seq<u8>, b: seq<u8>, m: seq<Slot>)
    requires |m| == |fs|
    requires DecodeNoinit(fs, a, m).Got? && DecLoop(fs, a, Dec(m, {})).zeroTag
    ensures var ra := DecodeNoinit(fs, a, m);
            DecodeNoinit(fs, a + b, m) == Got(ra.value, ra.rest + b)
  {
    hide DecLoop;
    LoopConcat(fs, a, b, Dec(m, {}));
  }
}
