/**
 What a call to seal the next packet comes to, as a function of the flight, the cursor, the counters and the
 room: which items go in, where the cursor ends up, and when sealing fails with items already in the packet.
 */
module DtlsPacking {
  import opened Prelude
  import opened DtlsFragment
  import opened DtlsFlight
  import W = DtlsWriter

  const RT_CHANGE_CIPHER_SPEC := 20
  const RT_HANDSHAKE := 22

  /** The bytes of an item as the plaintext of a record. */
  function Plain(item: Item): seq<u8> {
    match item
    case Ccs => [1]
    case Frag(f) => Bytes(f)
  }

  function RecordType(item: Item): u8 {
    if item.Ccs? then RT_CHANGE_CIPHER_SPEC else RT_HANDSHAKE
  }

  function Overhead(a: W.Aead, e: nat): nat {
    W.RECORD_HEADER + a.maxOverhead(e)
  }

  /** The room that some progress on an item needs. */
  function Needed(a: W.Aead, m: Outgoing): nat {
    Overhead(a, m.epoch) + (if m.isCcs then 1 else HEADER + 1)
  }

  /** Items are sealed under the current epoch or the one before. */
  predicate EpochKnown(w: W.Writer, m: Outgoing) {
    m.epoch == w.epoch || m.epoch + 1 == w.epoch
  }

  /** The item that goes into the next record: as much of the body behind the offset as the room allows. */
  function NextItem(a: W.Aead, flight: seq<Outgoing>, c: Cursor, room: nat): Item
    requires WellFormedFlight(flight) && CursorOk(flight, c) && c.written < |flight|
    requires room >= Needed(a, flight[c.written])
  {
    var m := flight[c.written];
    assert WellFormedItem(m);
    if m.isCcs then Ccs
    else
      var whole := Whole(m).value;
      var most := room - HEADER - Overhead(a, m.epoch);
      var todo := if |whole.body| - c.offset > most then most else |whole.body| - c.offset;
      Frag(Fragment(whole.typ, whole.msgLen, whole.num, c.offset, whole.body[c.offset..c.offset + todo]))
  }

  lemma NextItemSent(a: W.Aead, flight: seq<Outgoing>, c: Cursor, room: nat)
    requires WellFormedFlight(flight) && CursorOk(flight, c) && c.written < |flight|
    requires room >= Needed(a, flight[c.written])
    ensures Sent(flight, c, NextItem(a, flight, c, room)).Some?
  {
    hide Parse;
    assert WellFormedItem(flight[c.written]);
  }

  function SealItem(a: W.Aead, w: W.Writer, m: Outgoing, item: Item, room: nat): (W.Sealing, W.Writer)
    requires W.CountersOk(w) && EpochKnown(w, m)
  {
    W.Seal(a, w, m.epoch != w.epoch, RecordType(item), Plain(item), room)
  }

  /** Whether a packet could be made, what is in it, and the cursor and the counters at the end. */
  datatype Packed = Packed(ok: bool, items: seq<Item>, c: Cursor, w: W.Writer)

  function Pack(a: W.Aead, w: W.Writer, flight: seq<Outgoing>, c: Cursor, room: nat, items: seq<Item>): (p: Packed)
    requires W.CountersOk(w) && WellFormedFlight(flight) && CursorOk(flight, c)
    ensures W.CountersOk(p.w) && CursorOk(flight, p.c) && |items| <= |p.items|
    decreases |flight| - c.written
  {
    if c.written == |flight| then Packed(items != [], items, c, w)
    else if !EpochKnown(w, flight[c.written]) then Packed(false, items, c, w)
    else if room < Needed(a, flight[c.written]) then Packed(items != [], items, c, w)
    else
      var item := NextItem(a, flight, c, room);
      NextItemSent(a, flight, c, room);
      var c' := Sent(flight, c, item).value;
      match SealItem(a, w, flight[c.written], item, room)
      case (Done(r, len), w') =>
        if c'.written == c.written then Packed(true, items + [item], c', w')
        else Pack(a, w', flight, c', room - len, items + [item])
      case (_, w') => Packed(false, items, c, w')
  }

  /** At most this many records are sealed before the flight is out. */
  function Steps(flight: seq<Outgoing>, c: Cursor): nat
    requires CursorOk(flight, c)
    decreases |flight| - c.written
  {
    if c.written == |flight| then 0
    else
      Left(flight, c) + 1 + Steps(flight, Cursor(c.written + 1, 0))
  }

  lemma StepsFall(flight: seq<Outgoing>, c: Cursor, item: Item)
    requires WellFormedFlight(flight) && CursorOk(flight, c) && Sent(flight, c, item).Some?
    ensures Steps(flight, Sent(flight, c, item).value) < Steps(flight, c)
  {
    hide Parse;
    assert WellFormedItem(flight[c.written]);
  }

  /**
   What a caller can look at before: packets below 64K, the epochs of all items known, and counters that do not
   come to their end even if every byte left takes a record of its own.
   */
  predicate Sealable(w: W.Writer, flight: seq<Outgoing>, c: Cursor, mtu: nat)
    requires CursorOk(flight, c)
  {
    && mtu <= 0xFFFF
    && (forall i :: 0 <= i < |flight| ==> EpochKnown(w, flight[i]))
    && w.num + Steps(flight, c) < W.SEQ_SPACE && w.lastNum + Steps(flight, c) < W.SEQ_SPACE
  }

  /** Then no sealing fails: a packet is not made only when not even a first item fits it. */
  lemma {:induction false} SealableNeverFails(a: W.Aead, w: W.Writer, flight: seq<Outgoing>, c: Cursor, room: nat, items: seq<Item>)
    requires W.CountersOk(w) && W.LengthsOk(a) && WellFormedFlight(flight) && CursorOk(flight, c)
    requires Sealable(w, flight, c, room)
    ensures var p := Pack(a, w, flight, c, room, items);
            && Sealable(p.w, flight, p.c, room)
            && (p.ok <==> p.items != []) && (p.items == [] ==> p.c == c && p.w == w)
    decreases |flight| - c.written
  {
    hide NextItem, Whole, Left, WellFormedFlight, CursorOk, Steps, Sent, SealItem;
    InFlight(flight, c);
    if c.written < |flight| && room >= Needed(a, flight[c.written]) {
      var item := NextItem(a, flight, c, room);
      NextItemSent(a, flight, c, room);
      var c' := Sent(flight, c, item).value;
      SealsItem(a, w, flight, c, room);
      var (sealing, w') := SealItem(a, w, flight[c.written], item, room);
      if c'.written != c.written {
        SealableNeverFails(a, w', flight, c', room - sealing.len, items + [item]);
      }
    }
  }

  /** One item is sealed, and what a caller looked at still holds behind it. */
  lemma SealsItem(a: W.Aead, w: W.Writer, flight: seq<Outgoing>, c: Cursor, room: nat)
    requires W.CountersOk(w) && W.LengthsOk(a) && WellFormedFlight(flight) && CursorOk(flight, c) && c.written < |flight|
    requires Sealable(w, flight, c, room) && room >= Needed(a, flight[c.written])
    ensures var item := NextItem(a, flight, c, room);
            && Sent(flight, c, item).Some?
            && var (sealing, w') := SealItem(a, w, flight[c.written], item, room);
               W.CountersOk(w') && sealing.Done? && sealing.len <= room && Sealable(w', flight, Sent(flight, c, item).value, room)
  {
    hide NextItem, Whole, Left, WellFormedFlight, CursorOk, Steps, Sent, Plain;
    NextItemSent(a, flight, c, room);
    StepsFall(flight, c, NextItem(a, flight, c, room));
    ItemFits(a, flight, c, room);
    StepsSome(flight, c);
  }

  lemma InFlight(flight: seq<Outgoing>, c: Cursor)
    requires CursorOk(flight, c)
    ensures c.written <= |flight|
  {
  }

  lemma StepsSome(flight: seq<Outgoing>, c: Cursor)
    requires CursorOk(flight, c) && c.written < |flight|
    ensures Steps(flight, c) > 0
  {
  }

  lemma ItemFits(a: W.Aead, flight: seq<Outgoing>, c: Cursor, room: nat)
    requires WellFormedFlight(flight) && CursorOk(flight, c) && c.written < |flight|
    requires room >= Needed(a, flight[c.written])
    ensures |Plain(NextItem(a, flight, c, room))| + Overhead(a, flight[c.written].epoch) <= room
  {
    hide Parse;
  }

  // ---------------------------------------------------------------- what is in the packet

  /** Whether or not it could be made, the items are what comes next from the cursor, which stands behind them. */
  lemma {:induction false} PackSends(a: W.Aead, w: W.Writer, flight: seq<Outgoing>, c0: Cursor, c: Cursor, room: nat, items: seq<Item>)
    requires W.CountersOk(w) && WellFormedFlight(flight) && CursorOk(flight, c0) && CursorOk(flight, c)
    requires SentAll(flight, c0, items) == Some(c)
    ensures var p := Pack(a, w, flight, c, room, items); SentAll(flight, c0, p.items) == Some(p.c)
    decreases |flight| - c.written
  {
    hide NextItem, Whole, WellFormedFlight, CursorOk, Sent, SealItem, SentAll;
    InFlight(flight, c);
    if c.written < |flight| && EpochKnown(w, flight[c.written]) && room >= Needed(a, flight[c.written]) {
      var item := NextItem(a, flight, c, room);
      NextItemSent(a, flight, c, room);
      SentSnoc(flight, c0, items, item);
      var c' := Sent(flight, c, item).value;
      var (sealing, w') := SealItem(a, w, flight[c.written], item, room);
      if sealing.Done? && c'.written != c.written {
        SealCounters(a, w, flight[c.written], item, room);
        PackSends(a, w', flight, c0, c', room - sealing.len, items + [item]);
      }
    }
  }

  lemma {:induction false} StepsOfItems(flight: seq<Outgoing>, c: Cursor, items: seq<Item>)
    requires WellFormedFlight(flight) && CursorOk(flight, c) && SentAll(flight, c, items).Some?
    ensures Steps(flight, SentAll(flight, c, items).value) + |items| <= Steps(flight, c)
    decreases |items|
  {
    hide Sent, CursorOk, WellFormedFlight, Steps;
    if items != [] {
      var front := items[..|items| - 1];
      StepsOfItems(flight, c, front);
      StepsFall(flight, SentAll(flight, c, front).value, items[|items| - 1]);
    }
  }

  /** Of a message it is as much of what is left as fits behind both headers, beside what the cipher may add. */
  lemma NextItemIs(a: W.Aead, flight: seq<Outgoing>, c: Cursor, room: nat)
    requires WellFormedFlight(flight) && CursorOk(flight, c) && c.written < |flight|
    requires room >= Needed(a, flight[c.written])
    ensures var m, item := flight[c.written], NextItem(a, flight, c, room);
            && (m.isCcs <==> item.Ccs?)
            && (!m.isCcs ==>
                  && Whole(m).Some?
                  && var whole, left := Whole(m).value, room - a.maxOverhead(m.epoch) - 25;
                     var n := |item.f.body|;
                     && item.f == whole.(off := c.offset, body := item.f.body)
                     && c.offset + n <= |whole.body| && item.f.body == whole.body[c.offset..c.offset + n]
                     && (n == left || (n < left && c.offset + n == |whole.body|)))
  {
    hide Parse;
    assert WellFormedItem(flight[c.written]);
  }

  /** The room that items from the cursor on take when they are sealed. */
  function Used(a: W.Aead, flight: seq<Outgoing>, c: Cursor, items: seq<Item>): nat
    requires WellFormedFlight(flight) && CursorOk(flight, c)
    decreases |items|
  {
    if items == [] || c.written == |flight| || Sent(flight, c, items[0]).None? then 0
    else
      13 + a.size(flight[c.written].epoch, |Plain(items[0])|) + Used(a, flight, Sent(flight, c, items[0]).value, items[1..])
  }

  /**
   A packet is as full as it can be: if the flight goes on behind it with a new item, what room is left is less than
   what some progress on that item would need.
   */
  lemma {:induction false} PackFull(a: W.Aead, w: W.Writer, flight: seq<Outgoing>, c: Cursor, room: nat, items: seq<Item>)
    requires W.CountersOk(w) && WellFormedFlight(flight) && CursorOk(flight, c)
    ensures var p := Pack(a, w, flight, c, room, items);
            && items <= p.items
            && (p.ok && p.c.written < |flight| && p.c.offset == 0 ==>
                  var m := flight[p.c.written];
                  room < Used(a, flight, c, p.items[|items|..]) + 13 + a.maxOverhead(m.epoch) + (if m.isCcs then 1 else 13))
    decreases |flight| - c.written
  {
    hide NextItem, Whole, WellFormedFlight, CursorOk, Sent, SealItem;
    InFlight(flight, c);
    var p := Pack(a, w, flight, c, room, items);
    if c.written < |flight| && EpochKnown(w, flight[c.written]) && room >= Needed(a, flight[c.written]) {
      var item := NextItem(a, flight, c, room);
      NextItemSent(a, flight, c, room);
      var c' := Sent(flight, c, item).value;
      var (sealing, w') := SealItem(a, w, flight[c.written], item, room);
      CutInside(flight, c, item);
      if sealing.Done? && c'.written != c.written {
        SealCounters(a, w, flight[c.written], item, room);
        PackFull(a, w', flight, c', room - sealing.len, items + [item]);
        assert p.items[|items|..] == [item] + p.items[|items| + 1..];
        SealLength(a, w, flight[c.written], item, room);
      }
    }
  }

  lemma SealLength(a: W.Aead, w: W.Writer, m: Outgoing, item: Item, room: nat)
    requires W.CountersOk(w) && EpochKnown(w, m) && SealItem(a, w, m, item, room).0.Done?
    ensures SealItem(a, w, m, item, room).0.len == 13 + a.size(m.epoch, |Plain(item)|)
  {
  }

  /** The cursor stays at an item only inside of it. */
  lemma CutInside(flight: seq<Outgoing>, c: Cursor, item: Item)
    requires WellFormedFlight(flight) && CursorOk(flight, c) && Sent(flight, c, item).Some?
    ensures var c' := Sent(flight, c, item).value; CursorOk(flight, c') && (c'.written == c.written ==> c'.offset > 0)
  {
    hide Parse;
  }

  /** With room for the first item there is a packet, and it leaves fewer steps. */
  lemma FirstItemFits(a: W.Aead, w: W.Writer, flight: seq<Outgoing>, c: Cursor, room: nat)
    requires W.CountersOk(w) && W.LengthsOk(a) && WellFormedFlight(flight) && CursorOk(flight, c) && c.written < |flight|
    requires Sealable(w, flight, c, room) && room >= Needed(a, flight[c.written])
    ensures var p := Pack(a, w, flight, c, room, []);
            p.ok && CursorOk(flight, p.c) && Steps(flight, p.c) < Steps(flight, c)
  {
    hide NextItem, Whole, Left, WellFormedFlight, CursorOk, Steps, Sent, SealItem, SentAll;
    var p := Pack(a, w, flight, c, room, []);
    SealableNeverFails(a, w, flight, c, room, []);
    SealsItem(a, w, flight, c, room);
    assert p.items != [];
    StartsThere(flight, c);
    PackSends(a, w, flight, c, c, room, []);
    StepsOfItems(flight, c, p.items);
  }

  lemma StartsThere(flight: seq<Outgoing>, c: Cursor)
    requires WellFormedFlight(flight) && CursorOk(flight, c)
    ensures SentAll(flight, c, []) == Some(c)
  {
  }

  lemma SealCounters(a: W.Aead, w: W.Writer, m: Outgoing, item: Item, room: nat)
    requires W.CountersOk(w) && EpochKnown(w, m)
    ensures W.CountersOk(SealItem(a, w, m, item, room).1)
    ensures SealItem(a, w, m, item, room).0.Done? ==> SealItem(a, w, m, item, room).0.len <= room
  {
  }

  /** Sealing failed behind some items: the cursor stands behind what the transport will never be given. */
  predicate Loses(p: Packed) {
    !p.ok && p.items != []
  }

  /** So exactly then the cursor has moved without a packet. */
  lemma LosesIff(a: W.Aead, w: W.Writer, flight: seq<Outgoing>, c: Cursor, room: nat)
    requires W.CountersOk(w) && WellFormedFlight(flight) && CursorOk(flight, c)
    ensures var p := Pack(a, w, flight, c, room, []);
            && (Loses(p) <==> !p.ok && p.c != c)
            && (!Loses(p) && !p.ok ==> p.c == c)
  {
    hide Pack, Sent, CursorOk, WellFormedFlight;
    var p := Pack(a, w, flight, c, room, []);
    PackSends(a, w, flight, c, c, room, []);
    if p.items != [] {
      SentForward(flight, c, p.items);
    }
  }

  /** An item is lost only to packets above 64K, to an unknown epoch, or to a counter that has come to its end. */
  lemma {:induction false} LosesBecause(a: W.Aead, w: W.Writer, flight: seq<Outgoing>, c: Cursor, room: nat, items: seq<Item>)
    requires W.CountersOk(w) && W.LengthsOk(a) && WellFormedFlight(flight) && CursorOk(flight, c)
    ensures var p := Pack(a, w, flight, c, room, items);
            && p.w.epoch == w.epoch
            && (Loses(p) ==> room > 0xFFFF || p.w.wrapped || exists i :: 0 <= i < |flight| && !EpochKnown(w, flight[i]))
    decreases |flight| - c.written
  {
    hide NextItem, Whole, WellFormedFlight, CursorOk, Sent, SealItem, SentAll;
    InFlight(flight, c);
    if c.written < |flight| && EpochKnown(w, flight[c.written]) && room >= Needed(a, flight[c.written]) {
      var item := NextItem(a, flight, c, room);
      NextItemSent(a, flight, c, room);
      var c' := Sent(flight, c, item).value;
      var (sealing, w') := SealItem(a, w, flight[c.written], item, room);
      ItemFits(a, flight, c, room);
      SealFails(a, w, flight[c.written], item, room);
      SealCounters(a, w, flight[c.written], item, room);
      if sealing.Done? && c'.written != c.written {
        LosesBecause(a, w', flight, c', room - sealing.len, items + [item]);
        assert forall m :: EpochKnown(w, m) == EpochKnown(w', m);
      }
    }
  }

  lemma SealFails(a: W.Aead, w: W.Writer, m: Outgoing, item: Item, room: nat)
    requires W.CountersOk(w) && W.LengthsOk(a) && EpochKnown(w, m) && |Plain(item)| + Overhead(a, m.epoch) <= room
    ensures var (s, w') := SealItem(a, w, m, item, room); w'.epoch == w.epoch && (s.Done? || w'.wrapped || room > 0xFFFF)
  {
    hide Plain;
  }

  // ---------------------------------------------------------------- where it does fail

  function Zeros(n: nat): (b: seq<u8>)
    ensures |b| == n
  {
    seq(n, i => 0)
  }

  /** A cipher without overhead. */
  function Bare(): W.Aead {
    W.Aead(e => 0, e => 0, (e, n) => n)
  }

  function Queued(num: nat, body: seq<u8>): (m: Outgoing)
    requires num < U16 && |body| < U24
  {
    Outgoing(false, Bytes(Fragment(1, |body|, num, 0, body)), 0)
  }

  lemma QueuedWhole(num: nat, body: seq<u8>)
    requires num < U16 && |body| < U24
    ensures Whole(Queued(num, body)) == Some(Fragment(1, |body|, num, 0, body))
  {
    hide Parse, Bytes;
    var f := Fragment(1, |body|, num, 0, body);
    ParseOfBytes(f, []);
    assert Bytes(f) + [] == Bytes(f);
  }

  /**
   With packets above 64K: a message of one byte is sealed, the one of 70000 bytes behind it is not, and the
   cursor stands past the first, which was in no packet.
   */
  lemma BigPacketLoses()
    ensures var flight := [Queued(0, [7]), Queued(1, Zeros(70_000))];
            var w := W.Writer(0, 0, 0, [], false);
            && WellFormedFlight(flight) && CursorOk(flight, Cursor(0, 0))
            && var p := Pack(Bare(), w, flight, Cursor(0, 0), 200_000, []);
               Loses(p) && p.c == Cursor(1, 0)
  {
    hide Whole, Queued, Bytes;
    var small, big := Queued(0, [7]), Queued(1, Zeros(70_000));
    var flight := [small, big];
    QueuedWhole(0, [7]);
    QueuedWhole(1, Zeros(70_000));
    var w := W.Writer(0, 0, 0, [], false);
    var c := Cursor(0, 0);
    assert small.epoch == big.epoch == 0 && !small.isCcs && !big.isCcs by { QueuedShape(0, [7]); QueuedShape(1, Zeros(70_000)); }
    assert WellFormedFlight(flight);
    var f := Fragment(1, 1, 0, 0, [7]);
    assert [7][0..1] == [7];
    assert NextItem(Bare(), flight, c, 200_000) == Frag(f);
    assert |Bytes(f)| == 13;
    var (sealing, w') := SealItem(Bare(), w, small, Frag(f), 200_000);
    assert sealing.Done? && sealing.len == 26;
    assert Sent(flight, c, Frag(f)) == Some(Cursor(1, 0));
    var g := NextItem(Bare(), flight, Cursor(1, 0), 199_974);
    assert Zeros(70_000)[0..70_000] == Zeros(70_000);
    assert g.Frag? && |g.f.body| == 70_000;
    assert SealItem(Bare(), w', big, g, 199_974).0.Spent?;
    assert Pack(Bare(), w', flight, Cursor(1, 0), 199_974, [Frag(f)]) == Packed(false, [Frag(f)], Cursor(1, 0), SealItem(Bare(), w', big, g, 199_974).1);
    assert [] + [Frag(f)] == [Frag(f)];
  }

  lemma QueuedShape(num: nat, body: seq<u8>)
    requires num < U16 && |body| < U24
    ensures Queued(num, body).epoch == 0 && !Queued(num, body).isCcs
  {
  }
}
