/**
 A flight of handshake messages cut into fragments: the position reached in the flight, what each item
 sent does to it, and what a sent-out flight amounts to.
 */
module DtlsFlight {
  import opened Prelude
  import opened DtlsFragment
  import opened DtlsIncoming
  import opened DtlsRuns

  /** A queued item: a handshake message as one unfragmented fragment, or a ChangeCipherSpec. */
  datatype Outgoing = Outgoing(isCcs: bool, data: seq<u8>, epoch: nat)

  /** What a record of the flight carries. */
  datatype Item = Ccs | Frag(f: Fragment)

  /** The items of the flight sent completely, and the bytes sent of the body of the next one. */
  datatype Cursor = Cursor(written: nat, offset: nat)

  /** The whole message behind a queued item. */
  function Whole(m: Outgoing): Option<Fragment> {
    match Parse(m.data)
    case Fail => None
    case Got(f, rest) => if f.off != 0 || |f.body| != f.msgLen || rest != [] then None else Some(f)
  }

  predicate WellFormedItem(m: Outgoing) {
    !m.isCcs ==> Whole(m).Some?
  }

  predicate WellFormedFlight(flight: seq<Outgoing>) {
    forall i :: 0 <= i < |flight| ==> WellFormedItem(flight[i])
  }

  /** The body is never at its end: a message sent completely moves the cursor on. Before a ChangeCipherSpec it is 0. */
  predicate CursorOk(flight: seq<Outgoing>, c: Cursor) {
    && c.written <= |flight|
    && (c.offset == 0 || (c.written < |flight| && !flight[c.written].isCcs && Whole(flight[c.written]).Some?
          && c.offset < |Whole(flight[c.written]).value.body|))
  }

  /** `f` is the next stretch of the message: from the offset on, and not empty unless the message is. */
  predicate NextStretch(whole: Fragment, offset: nat, f: Fragment) {
    && offset + |f.body| <= |whole.body|
    && f == Fragment(whole.typ, whole.msgLen, whole.num, offset, whole.body[offset..offset + |f.body|])
    && (f.body == [] ==> whole.body == [])
  }

  /** The effect of sending one item; none if it is not what comes next. */
  function Sent(flight: seq<Outgoing>, c: Cursor, item: Item): (c': Option<Cursor>)
    requires WellFormedFlight(flight) && CursorOk(flight, c)
    ensures c'.Some? ==> CursorOk(flight, c'.value)
    ensures c'.Some? ==> c'.value.written > c.written || (c'.value.written == c.written && c'.value.offset > c.offset)
  {
    if c.written == |flight| then None
    else
      assert WellFormedItem(flight[c.written]);
      if flight[c.written].isCcs then
        if item.Ccs? then Some(Cursor(c.written + 1, 0)) else None
      else
        var whole := Whole(flight[c.written]).value;
        if item.Ccs? || !NextStretch(whole, c.offset, item.f) then None
        else if c.offset + |item.f.body| == |whole.body| then Some(Cursor(c.written + 1, 0))
        else Some(Cursor(c.written, c.offset + |item.f.body|))
  }

  function SentAll(flight: seq<Outgoing>, c: Cursor, items: seq<Item>): (c': Option<Cursor>)
    requires WellFormedFlight(flight) && CursorOk(flight, c)
    ensures c'.Some? ==> CursorOk(flight, c'.value)
    decreases |items|
  {
    if items == [] then Some(c)
    else match SentAll(flight, c, items[..|items| - 1])
      case None => None
      case Some(c') => Sent(flight, c', items[|items| - 1])
  }

  lemma SentSnoc(flight: seq<Outgoing>, c: Cursor, items: seq<Item>, item: Item)
    requires WellFormedFlight(flight) && CursorOk(flight, c) && SentAll(flight, c, items).Some?
    ensures SentAll(flight, c, items + [item]) == Sent(flight, SentAll(flight, c, items).value, item)
  {
    hide Sent, CursorOk, WellFormedFlight;
    assert (items + [item])[..|items + [item]| - 1] == items;
  }

  /** The cursor only moves forward. */
  lemma {:induction false} SentForward(flight: seq<Outgoing>, c: Cursor, items: seq<Item>)
    requires WellFormedFlight(flight) && CursorOk(flight, c) && SentAll(flight, c, items).Some? && items != []
    ensures var c' := SentAll(flight, c, items).value;
            c'.written > c.written || (c'.written == c.written && c'.offset > c.offset)
    decreases |items|
  {
    hide CursorOk, WellFormedFlight;
    if |items| > 1 {
      SentForward(flight, c, items[..|items| - 1]);
    }
  }

  lemma {:induction false} SentConcat(flight: seq<Outgoing>, c: Cursor, a: seq<Item>, b: seq<Item>)
    requires WellFormedFlight(flight) && CursorOk(flight, c) && SentAll(flight, c, a).Some?
    ensures SentAll(flight, c, a + b) == SentAll(flight, SentAll(flight, c, a).value, b)
    decreases |b|
  {
    hide Sent, CursorOk, WellFormedFlight;
    if b == [] {
      assert a + b == a;
    } else {
      var b' := b[..|b| - 1];
      assert (a + b)[..|a + b| - 1] == a + b';
      assert (a + b)[|a + b| - 1] == b[|b| - 1];
      SentConcat(flight, c, a, b');
    }
  }

  /** Queueing one more item does not disturb what has been sent. */
  lemma {:induction false} FlightGrows(flight: seq<Outgoing>, m: Outgoing, items: seq<Item>)
    requires WellFormedFlight(flight) && WellFormedItem(m) && SentAll(flight, Cursor(0, 0), items).Some?
    ensures WellFormedFlight(flight + [m])
    ensures SentAll(flight + [m], Cursor(0, 0), items) == SentAll(flight, Cursor(0, 0), items)
    decreases |items|
  {
    hide Whole, NextStretch;
    if items != [] {
      FlightGrows(flight, m, items[..|items| - 1]);
    }
  }

  /** The bytes still to send of the item at the cursor. */
  function Left(flight: seq<Outgoing>, c: Cursor): nat
    requires CursorOk(flight, c)
  {
    if c.written < |flight| && !flight[c.written].isCcs && Whole(flight[c.written]).Some?
    then |Whole(flight[c.written]).value.body| - c.offset
    else 0
  }

  /** The bodies of the fragments of message `num`, put together in the order they were sent. */
  function Assemble(items: seq<Item>, num: nat): seq<u8> {
    if items == [] then []
    else
      var last := items[|items| - 1];
      Assemble(items[..|items| - 1], num) + (if last.Frag? && last.f.num == num then last.f.body else [])
  }

  function Count(items: seq<Item>, num: nat): nat {
    if items == [] then 0
    else
      var last := items[|items| - 1];
      Count(items[..|items| - 1], num) + (if last.Frag? && last.f.num == num then 1 else 0)
  }

  predicate NumbersDiffer(a: Outgoing, b: Outgoing) {
    !a.isCcs && !b.isCcs && Whole(a).Some? && Whole(b).Some? ==> Whole(a).value.num != Whole(b).value.num
  }

  /** No two messages of a flight have the same number. */
  predicate Distinct(flight: seq<Outgoing>) {
    forall i, j :: 0 <= i < j < |flight| ==> NumbersDiffer(flight[i], flight[j])
  }

  /** How much of message `i` has been sent when the cursor is at `c`. */
  function Prefix(flight: seq<Outgoing>, c: Cursor, i: nat): seq<u8>
    requires i < |flight| && !flight[i].isCcs && Whole(flight[i]).Some? && CursorOk(flight, c)
  {
    var body := Whole(flight[i]).value.body;
    if i < c.written then body else if i == c.written then body[..c.offset] else []
  }

  /**
   The fragments sent tile the messages: up to the cursor every byte of every body has been sent once, in
   order, and every message behind the cursor in at least one fragment.
   */
  lemma {:induction false} Tiled(flight: seq<Outgoing>, items: seq<Item>, i: nat)
    requires WellFormedFlight(flight) && Distinct(flight) && SentAll(flight, Cursor(0, 0), items).Some?
    requires i < |flight| && !flight[i].isCcs && Whole(flight[i]).Some?
    ensures var c := SentAll(flight, Cursor(0, 0), items).value;
            var num := Whole(flight[i]).value.num;
            && Assemble(items, num) == Prefix(flight, c, i)
            && (i < c.written ==> Count(items, num) > 0)
    decreases |items|
  {
    hide WellFormedFlight, Distinct, Whole;
    if items != [] {
      Tiled(flight, items[..|items| - 1], i);
      var c := SentAll(flight, Cursor(0, 0), items[..|items| - 1]).value;
      TileStep(flight, c, items[|items| - 1], i);
    }
  }

  lemma TileStep(flight: seq<Outgoing>, c: Cursor, item: Item, i: nat)
    requires WellFormedFlight(flight) && Distinct(flight) && CursorOk(flight, c) && Sent(flight, c, item).Some?
    requires i < |flight| && !flight[i].isCcs && Whole(flight[i]).Some?
    ensures var c' := Sent(flight, c, item).value;
            var mine := item.Frag? && item.f.num == Whole(flight[i]).value.num;
            && Prefix(flight, c', i) == Prefix(flight, c, i) + (if mine then item.f.body else [])
            && (i == c.written < c'.written ==> mine)
            && (c.written <= c'.written <= c.written + 1)
  {
    hide Whole;
    var body := Whole(flight[i]).value.body;
    assert WellFormedItem(flight[c.written]);
    if i == c.written {
      assert body[..c.offset] + body[c.offset..c.offset + |item.f.body|] == body[..c.offset + |item.f.body|];
      assert body[..|body|] == body;
    } else if !flight[c.written].isCcs {
      assert if i < c.written then NumbersDiffer(flight[i], flight[c.written]) else NumbersDiffer(flight[c.written], flight[i]);
    }
  }

  lemma {:induction false} CountedItem(items: seq<Item>, num: nat)
    requires Count(items, num) > 0
    ensures exists j :: 0 <= j < |items| && items[j].Frag? && items[j].f.num == num
    decreases |items|
  {
    var last := items[|items| - 1];
    if !(last.Frag? && last.f.num == num) {
      CountedItem(items[..|items| - 1], num);
      var j :| 0 <= j < |items| - 1 && items[..|items| - 1][j].Frag? && items[..|items| - 1][j].f.num == num;
      assert items[j].f.num == num;
    }
  }

  /** A byte of message `i` behind the cursor lies in one of the fragments sent. */
  lemma {:induction false} ByteSent(flight: seq<Outgoing>, items: seq<Item>, i: nat, k: nat) returns (j: nat)
    requires WellFormedFlight(flight) && SentAll(flight, Cursor(0, 0), items).Some?
    requires i < |flight| && !flight[i].isCcs && Whole(flight[i]).Some?
    requires k < |Prefix(flight, SentAll(flight, Cursor(0, 0), items).value, i)|
    ensures j < |items| && items[j].Frag? && items[j].f.num == Whole(flight[i]).value.num && Covers(items[j].f, k)
    decreases |items|
  {
    hide WellFormedFlight, Whole;
    var front := items[..|items| - 1];
    var c := SentAll(flight, Cursor(0, 0), front).value;
    if k < |Prefix(flight, c, i)| {
      j := ByteSent(flight, front, i, k);
      assert front[j] == items[j];
    } else {
      j := |items| - 1;
    }
  }

  /** The flight's messages are the sender's. */
  predicate FlightOf(msgs: seq<Message>, flight: seq<Outgoing>) {
    forall i :: 0 <= i < |flight| && !flight[i].isCcs && Whole(flight[i]).Some? ==>
      var f := Whole(flight[i]).value;
      f.num < |msgs| && f.typ == msgs[f.num].typ && f.body == msgs[f.num].body
  }

  /** Everything sent for a flight is a true stretch of one of its messages. */
  lemma {:induction false} FragmentsHonest(msgs: seq<Message>, flight: seq<Outgoing>, items: seq<Item>)
    requires WellFormedFlight(flight) && FlightOf(msgs, flight) && SentAll(flight, Cursor(0, 0), items).Some?
    ensures forall j :: 0 <= j < |items| && items[j].Frag? ==> Honest(msgs, items[j].f)
    decreases |items|
  {
    hide Parse;
    if items != [] {
      var front := items[..|items| - 1];
      FragmentsHonest(msgs, flight, front);
      var c := SentAll(flight, Cursor(0, 0), front).value;
      assert WellFormedItem(flight[c.written]);
      forall j | 0 <= j < |items| && items[j].Frag?
        ensures Honest(msgs, items[j].f)
      {
        assert j < |front| ==> items[j] == front[j];
      }
    }
  }

  /**
   Once everything a flight was cut into has arrived, in whatever order and however often, the receiver
   has the message it is waiting for.
   */
  lemma FlightArrives(msgs: seq<Message>, r: Run, flight: seq<Outgoing>, items: seq<Item>, i: nat)
    requires Good(msgs, r) && WellFormedFlight(flight) && Distinct(flight)
    requires SentAll(flight, Cursor(0, 0), items) == Some(Cursor(|flight|, 0))
    requires forall j :: 0 <= j < |items| && items[j].Frag? ==> items[j].f in r.arrived
    requires i < |flight| && !flight[i].isCcs && Whole(flight[i]).Some? && Whole(flight[i]).value.num == r.s.next
    requires r.s.next < |msgs| && Whole(flight[i]).value.body == msgs[r.s.next].body
    ensures |r.s.slots| == MAX_FLIGHT && Current(r.s).Some? && Contents(Current(r.s).value) == msgs[r.s.next]
  {
    hide SentAll, Good, Whole, WellFormedFlight, Distinct;
    var num := r.s.next;
    Tiled(flight, items, i);
    CountedItem(items, num);
    var j :| 0 <= j < |items| && items[j].Frag? && items[j].f.num == num;
    assert HasArrived(r.arrived, num) by {
      assert items[j].f in r.arrived;
    }
    forall k | 0 <= k < |msgs[num].body|
      ensures ByteArrived(r.arrived, num, k)
    {
      var b := ByteSent(flight, items, i, k);
      assert items[b].f in r.arrived;
    }
    GoodSlots(msgs, r);
    CompleteIffArrived(msgs, r);
  }

  /** The flight has message `num` in it, as the sender meant it. */
  predicate Queued(msgs: seq<Message>, flight: seq<Outgoing>, num: nat) {
    exists i :: 0 <= i < |flight| && !flight[i].isCcs && Whole(flight[i]).Some? && Whole(flight[i]).value.num == num
      && num < |msgs| && Whole(flight[i]).value.body == msgs[num].body
  }

  /** Reading one message after the other. */
  function Reads(n: nat): (events: seq<Event>)
    ensures |events| == n
  {
    seq(n, i => Read)
  }

  /** So all its messages, from the one that is waited for on, can then be read one after the other. */
  lemma {:induction false} FlightIsRead(msgs: seq<Message>, r: Run, flight: seq<Outgoing>, items: seq<Item>, upTo: nat, maxLen: nat)
    requires Sendable(msgs, maxLen) && Good(msgs, r) && WellFormedFlight(flight) && Distinct(flight)
    requires SentAll(flight, Cursor(0, 0), items) == Some(Cursor(|flight|, 0))
    requires forall j :: 0 <= j < |items| && items[j].Frag? ==> items[j].f in r.arrived
    requires r.s.next <= upTo && forall num: nat :: r.s.next <= num < upTo ==> Queued(msgs, flight, num)
    ensures |r.s.slots| == MAX_FLIGHT && upTo <= |msgs|
    ensures var x := Exec(r, Reads(upTo - r.s.next), maxLen); x.Some? && x.value.out == msgs[..upTo]
    decreases upTo - r.s.next
  {
    hide SentAll, Good, Whole, WellFormedFlight, Distinct, Sendable, Step;
    GoodSlots(msgs, r);
    ReadSoFar(msgs, r);
    if r.s.next < upTo {
      var num := r.s.next;
      assert Queued(msgs, flight, num);
      var i :| 0 <= i < |flight| && !flight[i].isCcs && Whole(flight[i]).Some? && Whole(flight[i]).value.num == num
        && num < |msgs| && Whole(flight[i]).value.body == msgs[num].body;
      FlightArrives(msgs, r, flight, items, i);
      ReadGood(msgs, r, maxLen);
      var r' := Step(r, Read, maxLen).value;
      OneRead(msgs, r, maxLen);
      FlightIsRead(msgs, r', flight, items, upTo, maxLen);
      assert Reads(upTo - num)[1..] == Reads(upTo - num - 1);
    }
  }

  lemma ReadSoFar(msgs: seq<Message>, r: Run)
    requires Good(msgs, r)
    ensures r.s.next <= |msgs| && r.out == msgs[..r.s.next]
  {
    hide Valid, SlotRight;
  }

  lemma OneRead(msgs: seq<Message>, r: Run, maxLen: nat)
    requires Sendable(msgs, maxLen) && Good(msgs, r) && |r.s.slots| == MAX_FLIGHT && Current(r.s).Some? && r.s.next < |msgs|
    ensures var x := Step(r, Read, maxLen); x.Some? && x.value.s.next == r.s.next + 1 && x.value.arrived == r.arrived
  {
    hide Valid, SlotRight;
  }
}
