/**
 Runs of the receiver against an honest sender over a network that may lose, duplicate, reorder and
 re-fragment. A run is any sequence of arrivals and reads.
 */
module DtlsRuns {
  import opened Prelude
  import opened DtlsFragment
  import opened DtlsIncoming

  datatype Message = Message(typ: u8, body: seq<u8>)

  /** The sender's messages; message `i` has number `i`, so the 16-bit numbers do not repeat. */
  predicate Sendable(msgs: seq<Message>, maxLen: nat) {
    && |msgs| < U16
    && forall i :: 0 <= i < |msgs| ==> |msgs[i].body| <= maxLen
  }

  /** Any stretch, of any length, of one of the sender's messages. */
  predicate Honest(msgs: seq<Message>, f: Fragment) {
    && f.num < |msgs|
    && f.typ == msgs[f.num].typ
    && f.msgLen == |msgs[f.num].body|
    && f.off + |f.body| <= f.msgLen
    && f.body == msgs[f.num].body[f.off..f.off + |f.body|]
  }

  /** A fragment arrives in the read epoch of the moment, or the reader asks for a message. */
  datatype Event = Arrive(f: Fragment, epoch: nat) | Read

  predicate HonestEvents(msgs: seq<Message>, events: seq<Event>) {
    forall i :: 0 <= i < |events| && events[i].Arrive? ==> Honest(msgs, events[i].f)
  }

  /** The receiver, the messages read so far, and the fragments that arrived when in the window. */
  datatype Run = Run(s: Incoming, out: seq<Message>, arrived: seq<Fragment>)

  predicate InWindow(next: nat, num: nat) {
    next <= num < next + MAX_FLIGHT
  }

  function Contents(p: Partial): (m: Message)
    requires Complete(p)
    ensures |m.body| == p.len
  {
    Message(p.typ, Assembled(p))
  }

  function Step(r: Run, e: Event, maxLen: nat): (r': Option<Run>)
    requires |r.s.slots| == MAX_FLIGHT
    ensures r'.Some? ==> |r'.value.s.slots| == MAX_FLIGHT
  {
    match e
    case Arrive(f, epoch) =>
      (match Receive(r.s, f, epoch, maxLen)
       case Failed(_, _) => None
       case Taken(s) => Some(Run(s, r.out, if InWindow(r.s.next, f.num) then r.arrived + [f] else r.arrived)))
    case Read =>
      (match Current(r.s)
       case None => Some(r)
       case Some(p) => Some(Run(Advance(r.s), r.out + [Contents(p)], r.arrived)))
  }

  function Exec(r: Run, events: seq<Event>, maxLen: nat): (r': Option<Run>)
    requires |r.s.slots| == MAX_FLIGHT
    ensures r'.Some? ==> |r'.value.s.slots| == MAX_FLIGHT
    decreases |events|
  {
    if events == [] then Some(r)
    else match Step(r, events[0], maxLen)
      case None => None
      case Some(r') => Exec(r', events[1..], maxLen)
  }

  function Start(): Run {
    Run(Fresh(), [], [])
  }

  predicate HasArrived(arrived: seq<Fragment>, num: nat) {
    exists j :: 0 <= j < |arrived| && arrived[j].num == num
  }

  /** Byte `k` of message `num` was in some fragment that arrived. */
  predicate ByteArrived(arrived: seq<Fragment>, num: nat, k: nat) {
    exists j :: 0 <= j < |arrived| && arrived[j].num == num && Covers(arrived[j], k)
  }

  /** A slot holds just what has arrived of its message, and all of it is right. */
  ghost predicate SlotRight(msgs: seq<Message>, arrived: seq<Fragment>, num: nat, slot: Option<Partial>) {
    && (slot.Some? <==> HasArrived(arrived, num))
    && (slot.Some? ==>
          var p := slot.value;
          && num < |msgs|
          && p.num == num && p.typ == msgs[num].typ && p.len == |msgs[num].body|
          && (forall k :: k in p.bytes <==> ByteArrived(arrived, num, k))
          && (forall k :: k in p.bytes ==> k < p.len && p.bytes[k] == msgs[num].body[k]))
  }

  ghost predicate Good(msgs: seq<Message>, r: Run) {
    && Valid(r.s)
    && r.s.next <= |msgs|
    && r.out == msgs[..r.s.next]
    && (forall j :: 0 <= j < |r.arrived| ==> r.arrived[j].num < r.s.next + MAX_FLIGHT)
    && (forall num: nat :: InWindow(r.s.next, num) ==> SlotRight(msgs, r.arrived, num, r.s.slots[num % MAX_FLIGHT]))
  }

  lemma GoodStart(msgs: seq<Message>)
    ensures Good(msgs, Start())
  {
    ValidFresh();
  }

  // ---------------------------------------------------------------- an arrival

  lemma ArrivedMore(arrived: seq<Fragment>, f: Fragment, num: nat)
    ensures HasArrived(arrived + [f], num) <==> HasArrived(arrived, num) || f.num == num
    ensures forall k :: ByteArrived(arrived + [f], num, k) <==> ByteArrived(arrived, num, k) || (f.num == num && Covers(f, k))
  {
    var a := arrived + [f];
    assert a[|arrived|] == f;
    if HasArrived(arrived, num) {
      var j :| 0 <= j < |arrived| && arrived[j].num == num;
      assert a[j].num == num;
    }
    forall k | ByteArrived(arrived, num, k)
      ensures ByteArrived(a, num, k)
    {
      var j :| 0 <= j < |arrived| && arrived[j].num == num && Covers(arrived[j], k);
      assert a[j].num == num && Covers(a[j], k);
    }
  }

  /** A fragment extends the slot of its own message to what has arrived now. */
  lemma ExtendRight(msgs: seq<Message>, arrived: seq<Fragment>, f: Fragment, slot: Option<Partial>)
    requires Honest(msgs, f) && SlotRight(msgs, arrived, f.num, slot)
    ensures var p := if slot.Some? then slot.value else Partial(f.typ, f.num, f.msgLen, map[]);
            && p.typ == f.typ && p.len == f.msgLen
            && SlotRight(msgs, arrived + [f], f.num, Some(Extend(p, f)))
  {
    hide ByteArrived, HasArrived;
    var p := if slot.Some? then slot.value else Partial(f.typ, f.num, f.msgLen, map[]);
    ArrivedMore(arrived, f, f.num);
    if slot.None? {
      NothingArrived(arrived, f.num);
    }
    var q := Extend(p, f);
    forall k: nat
      ensures k in q.bytes <==> k in p.bytes || Covers(f, k)
      ensures Covers(f, k) ==> k < f.msgLen && f.body[k - f.off] == msgs[f.num].body[k]
    {
      assert k in Brought(f) <==> Covers(f, k);
    }
  }

  lemma NothingArrived(arrived: seq<Fragment>, num: nat)
    requires !HasArrived(arrived, num)
    ensures forall k :: !ByteArrived(arrived, num, k)
  {
  }

  lemma ArriveGood(msgs: seq<Message>, r: Run, f: Fragment, epoch: nat, maxLen: nat)
    requires Sendable(msgs, maxLen) && Good(msgs, r) && Honest(msgs, f)
    ensures Step(r, Arrive(f, epoch), maxLen).None? <==> (epoch == 1 && f.num != r.s.next) || f.num == r.s.next + MAX_FLIGHT
    ensures Step(r, Arrive(f, epoch), maxLen).Some? ==> Good(msgs, Step(r, Arrive(f, epoch), maxLen).value)
  {
    hide SlotRight, Extend, Valid;
    ValidSlots(r.s);
    ReceiveValid(r.s, f, epoch, maxLen);
    if InWindow(r.s.next, f.num) {
      var i := f.num % MAX_FLIGHT;
      ExtendRight(msgs, r.arrived, f, r.s.slots[i]);
      forall num: nat | InWindow(r.s.next, num) && num != f.num
        ensures num % MAX_FLIGHT != i
        ensures SlotRight(msgs, r.arrived + [f], num, r.s.slots[num % MAX_FLIGHT])
      {
        ModWindow(r.s.next, num, f.num);
        OtherRight(msgs, r.arrived, f, num, r.s.slots[num % MAX_FLIGHT]);
      }
    }
  }

  lemma ValidSlots(s: Incoming)
    requires Valid(s)
    ensures |s.slots| == MAX_FLIGHT
  {
  }

  lemma ModWindow(next: nat, a: nat, b: nat)
    requires InWindow(next, a) && InWindow(next, b) && a != b
    ensures a % MAX_FLIGHT != b % MAX_FLIGHT
  {
  }

  lemma OtherRight(msgs: seq<Message>, arrived: seq<Fragment>, f: Fragment, num: nat, slot: Option<Partial>)
    requires SlotRight(msgs, arrived, num, slot) && num != f.num
    ensures SlotRight(msgs, arrived + [f], num, slot)
  {
    hide ByteArrived, HasArrived;
    ArrivedMore(arrived, f, num);
  }

  // ---------------------------------------------------------------- a read

  /** The current message can be read exactly when a fragment of it, and every byte of it, has arrived. */
  lemma CompleteIffArrived(msgs: seq<Message>, r: Run)
    requires Good(msgs, r)
    ensures Current(r.s).Some? <==>
              && r.s.next < |msgs| && HasArrived(r.arrived, r.s.next)
              && forall k :: 0 <= k < |msgs[r.s.next].body| ==> ByteArrived(r.arrived, r.s.next, k)
    ensures Current(r.s).Some? ==> r.s.next < |msgs| && Contents(Current(r.s).value) == msgs[r.s.next]
  {
    hide ByteArrived, HasArrived, Valid;
    ValidSlots(r.s);
    assert InWindow(r.s.next, r.s.next);
    var slot := r.s.slots[r.s.next % MAX_FLIGHT];
    assert SlotRight(msgs, r.arrived, r.s.next, slot);
    if Current(r.s).Some? {
      assert Contents(slot.value).body == msgs[r.s.next].body;
    }
  }

  lemma ReadGood(msgs: seq<Message>, r: Run, maxLen: nat)
    requires Sendable(msgs, maxLen) && Good(msgs, r)
    ensures Step(r, Read, maxLen).Some?
    ensures Good(msgs, Step(r, Read, maxLen).value)
  {
    hide Valid, ByteArrived, HasArrived, SlotRight;
    ValidSlots(r.s);
    CompleteIffArrived(msgs, r);
    if Current(r.s).Some? {
      AdvanceValid(r.s);
      var s' := Advance(r.s);
      assert s'.next == r.s.next + 1;
      forall num: nat | InWindow(s'.next, num)
        ensures SlotRight(msgs, r.arrived, num, s'.slots[num % MAX_FLIGHT])
      {
        if num == r.s.next + MAX_FLIGHT {
          NewSlotRight(msgs, r.arrived, num);
        } else {
          ModWindow(r.s.next, num, r.s.next);
        }
      }
    }
  }

  lemma NewSlotRight(msgs: seq<Message>, arrived: seq<Fragment>, num: nat)
    requires forall j :: 0 <= j < |arrived| ==> arrived[j].num < num
    ensures SlotRight(msgs, arrived, num, None)
  {
  }

  // ---------------------------------------------------------------- all runs

  /** One event of any kind. */
  lemma StepGood(msgs: seq<Message>, r: Run, e: Event, maxLen: nat)
    requires Sendable(msgs, maxLen) && Good(msgs, r) && (e.Arrive? ==> Honest(msgs, e.f))
    ensures |r.s.slots| == MAX_FLIGHT
    ensures Step(r, e, maxLen).Some? ==> Good(msgs, Step(r, e, maxLen).value)
  {
    hide Good, Step;
    GoodSlots(msgs, r);
    match e
    case Arrive(f, epoch) => ArriveGood(msgs, r, f, epoch, maxLen);
    case Read => ReadGood(msgs, r, maxLen);
  }

  lemma GoodSlots(msgs: seq<Message>, r: Run)
    requires Good(msgs, r)
    ensures |r.s.slots| == MAX_FLIGHT
  {
  }

  lemma {:induction false} ExecGood(msgs: seq<Message>, r: Run, events: seq<Event>, maxLen: nat)
    requires Sendable(msgs, maxLen) && Good(msgs, r) && HonestEvents(msgs, events)
    ensures |r.s.slots| == MAX_FLIGHT
    ensures Exec(r, events, maxLen).Some? ==> Good(msgs, Exec(r, events, maxLen).value)
    decreases |events|
  {
    hide Good, Step;
    GoodSlots(msgs, r);
    if events != [] {
      StepGood(msgs, r, events[0], maxLen);
      if Step(r, events[0], maxLen).Some? {
        ExecGood(msgs, Step(r, events[0], maxLen).value, events[1..], maxLen);
      }
    }
  }

  /**
   Whatever the network does with an honest sender's fragments, the messages read are the sender's, in
   order, from the first, with no gap and no repetition; and the next one is there exactly when all of its
   bytes have arrived in the window.
   */
  lemma InOrderDelivery(msgs: seq<Message>, events: seq<Event>, maxLen: nat)
    requires Sendable(msgs, maxLen) && HonestEvents(msgs, events)
    ensures var x := Exec(Start(), events, maxLen);
            x.Some? ==>
              var r := x.value;
              && r.s.next <= |msgs| && r.out == msgs[..r.s.next]
              && (Current(r.s).Some? <==>
                    && r.s.next < |msgs| && HasArrived(r.arrived, r.s.next)
                    && forall k :: 0 <= k < |msgs[r.s.next].body| ==> ByteArrived(r.arrived, r.s.next, k))
  {
    hide Exec, HasArrived, ByteArrived;
    GoodStart(msgs);
    ExecGood(msgs, Start(), events, maxLen);
    if Exec(Start(), events, maxLen).Some? {
      CompleteIffArrived(msgs, Exec(Start(), events, maxLen).value);
    }
  }

  /** Said to be ignored as too far ahead, and yet an error: at the very start, a fragment of the eighth message. */
  lemma SevenAheadFails()
    ensures var msgs := seq(8, i => Message(1, []));
            var f := Fragment(1, 0, 7, 0, []);
            Sendable(msgs, 0) && Honest(msgs, f) && Step(Start(), Arrive(f, 0), 0).None?
  {
    var msgs := seq(8, i => Message(1, []));
    GoodStart(msgs);
    ArriveGood(msgs, Start(), Fragment(1, 0, 7, 0, []), 0, 0);
  }
}
