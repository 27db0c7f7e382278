/** Where the wire type of a known field is looked at, and where it is not. */
module PbWireType {
  import opened Prelude
  import opened PbWire
  import opened PbModel
  import R = PbRoundTrip

  /** Only a repeated field of a packable type tells wire types apart, and it only tells strings from the rest. */
  predicate TellsApart(f: Field, wt: nat, wt': nat) {
    f.htype.Repeated? && Packable(f.ltype) && (wt == WT_STRING) != (wt' == WT_STRING)
  }

  /** Otherwise the field is decoded the same under either wire type, whatever follows and whatever is stored. */
  lemma WireTypeIgnored(fs: seq<Field>, i: nat, wt: nat, wt': nat, s: seq<u8>, slots: seq<Slot>)
    requires |fs| == |slots| && i < |fs| && !TellsApart(fs[i], wt, wt')
    ensures DecField(fs, i, wt, s, slots) == DecField(fs, i, wt', s, slots)
  {
  }

  /** Where it does tell them apart, there is input on which that shows. */
  lemma WireTypeMatters(fs: seq<Field>, i: nat, wt: nat, wt': nat)
    requires i < |fs| && TellsApart(fs[i], wt, wt')
    ensures exists s: seq<u8>, slots: seq<Slot> :: |slots| == |fs| && DecField(fs, i, wt, s, slots) != DecField(fs, i, wt', s, slots)
  {
    var slots := seq(|fs|, k => Rep([]));
    EightZeros(fs, i, if wt == WT_STRING then wt' else wt, slots);
    WireTypeIgnored(fs, i, if wt == WT_STRING then wt else wt', WT_STRING, Zeros(8), slots);
    assert DecField(fs, i, wt, Zeros(8), slots) != DecField(fs, i, wt', Zeros(8), slots);
  }

  lemma WireTypeIff(fs: seq<Field>, i: nat, wt: nat, wt': nat)
    requires i < |fs|
    ensures (forall s: seq<u8>, slots: seq<Slot> :: |slots| == |fs| ==> DecField(fs, i, wt, s, slots) == DecField(fs, i, wt', s, slots))
            <==> !TellsApart(fs[i], wt, wt')
  {
    hide DecField;
    if TellsApart(fs[i], wt, wt') {
      WireTypeMatters(fs, i, wt, wt');
    } else {
      forall s: seq<u8>, slots: seq<Slot> | |slots| == |fs|
        ensures DecField(fs, i, wt, s, slots) == DecField(fs, i, wt', s, slots)
      {
        WireTypeIgnored(fs, i, wt, wt', s, slots);
      }
    }
  }

  /** As a string, eight zeros are an empty array and seven bytes that follow; otherwise they are or begin with an item. */
  lemma EightZeros(fs: seq<Field>, i: nat, wt: nat, slots: seq<Slot>)
    requires |fs| == |slots| && i < |fs| && slots[i] == Rep([])
    requires fs[i].htype.Repeated? && Packable(fs[i].ltype) && wt != WT_STRING
    ensures DecField(fs, i, WT_STRING, Zeros(8), slots) == Got(slots, Zeros(7))
    ensures DecField(fs, i, wt, Zeros(8), slots) != Got(slots, Zeros(7))
  {
    var s := Zeros(8);
    assert s[1..] == Zeros(7);
    assert Substream(s) == Got([], Zeros(7)) by {
      assert Varint32(s) == Got(0, Zeros(7));
      assert Zeros(7)[..0] == [] && Zeros(7)[0..] == Zeros(7);
    }
    assert slots[i := Rep([])] == slots;
    var r := DecField(fs, i, wt, s, slots);
    if r.Got? {
      assert r.value[i].Rep? && |r.value[i].items| == 1;
    }
  }

  /** A fixed-width field is taken under the wire type of a varint. */
  lemma WrongWireTypeDecodes()
    ensures var fs := [Field(1, LFixed32, Required, None)];
            Decode(fs, EncTag(1, WT_VARINT) + [7, 0, 0, 0]).Got? && WireType(LFixed32) != WT_VARINT
  {
    hide DecLoop, EncTag;
    var fs := [Field(1, LFixed32, Required, None)];
    var d := Dec(Defaults(fs), {});
    var body: seq<u8> := [7, 0, 0, 0];
    assert Find(fs, 1) == Some(0);
    R.LoopKnown(fs, 1, WT_VARINT, body, d, 0);
    var r := DecField(fs, 0, WT_VARINT, body, d.slots);
    assert r.Got? && r.rest == [];
    NothingLeft(fs, Dec(r.value, {0}));
    assert d.seen + {0} == {0};
  }

  lemma NothingLeft(fs: seq<Field>, d: Dec)
    requires |d.slots| == |fs|
    ensures DecLoop(fs, [], d) == Stop(d, false, [])
  {
  }
}
