/**
 The receiving side of the DTLS handshake as functions on values: seven slots for messages under
 reassembly, indexed by the message number modulo seven.
 */
module DtlsIncoming {
  import opened Prelude
  import opened DtlsFragment

  const MAX_FLIGHT := 7

  datatype Alert = DecodeError | IllegalParameter | UnexpectedMessage | InternalError

  /** A message under reassembly: the body bytes that have arrived. */
  datatype Partial = Partial(typ: u8, num: nat, len: nat, bytes: map<nat, u8>)

  /** The number of the next message to be read (16 bits), and the seven slots. */
  datatype Incoming = Incoming(next: nat, slots: seq<Option<Partial>>)

  /** A record is taken to its end, or an error ends it; the fragments before the error have been taken. */
  datatype Outcome = Taken(s: Incoming) | Failed(s: Incoming, alert: Alert)

  predicate Complete(p: Partial) {
    forall k :: 0 <= k < p.len ==> k in p.bytes
  }

  /** A slot only ever holds a message whose number is in the window and congruent to the slot's index. */
  predicate InSlot(next: nat, i: nat, p: Partial) {
    && p.num % MAX_FLIGHT == i
    && next <= p.num < next + MAX_FLIGHT
    && p.num < U16
    && forall k :: k in p.bytes ==> k < p.len
  }

  predicate Valid(s: Incoming) {
    && s.next < U16
    && |s.slots| == MAX_FLIGHT
    && forall i :: 0 <= i < MAX_FLIGHT && s.slots[i].Some? ==> InSlot(s.next, i, s.slots[i].value)
  }

  function Fresh(): Incoming {
    Incoming(0, seq(MAX_FLIGHT, i => None))
  }

  predicate Covers(f: Fragment, k: nat) {
    f.off <= k < f.off + |f.body|
  }

  /** The bytes that a fragment brings, at their offsets in the message. */
  function Brought(f: Fragment): map<nat, u8> {
    map k: nat | k < f.off + |f.body| && Covers(f, k) :: f.body[k - f.off]
  }

  predicate WellFormed(f: Fragment, maxLen: nat) {
    f.off + |f.body| <= f.msgLen <= maxLen
  }

  /** The message that the fragment belongs to: already under reassembly, or new. */
  function Owner(s: Incoming, f: Fragment): Partial
    requires |s.slots| == MAX_FLIGHT
  {
    match s.slots[f.num % MAX_FLIGHT]
    case Some(p) => p
    case None => Partial(f.typ, f.num, f.msgLen, map[])
  }

  /** One more fragment for a message; a complete message takes nothing more. */
  function Extend(p: Partial, f: Fragment): Partial {
    if Complete(p) then p else p.(bytes := p.bytes + Brought(f))
  }

  function Receive(s: Incoming, f: Fragment, epoch: nat, maxLen: nat): (r: Outcome)
    requires |s.slots| == MAX_FLIGHT
    ensures |r.s.slots| == MAX_FLIGHT
  {
    if !WellFormed(f, maxLen) then Failed(s, IllegalParameter)
    else if epoch == 1 && f.num != s.next then Failed(s, UnexpectedMessage)
    else if f.num < s.next || f.num > s.next + MAX_FLIGHT then Taken(s)
    else if f.num - s.next >= MAX_FLIGHT then Failed(s, InternalError)
    else
      var p := Owner(s, f);
      if p.typ != f.typ || p.len != f.msgLen then Failed(s, IllegalParameter)
      else Taken(s.(slots := s.slots[f.num % MAX_FLIGHT := Some(Extend(p, f))]))
  }

  /** A record holds any number of fragments. */
  function ReceiveRecord(s: Incoming, record: seq<u8>, epoch: nat, maxLen: nat): Outcome
    requires |s.slots| == MAX_FLIGHT
    decreases |record|
  {
    if record == [] then Taken(s)
    else match Parse(record)
      case Fail => Failed(s, DecodeError)
      case Got(f, rest) =>
        (match Receive(s, f, epoch, maxLen)
         case Failed(s', alert) => Failed(s', alert)
         case Taken(s') => ReceiveRecord(s', rest, epoch, maxLen))
  }

  /** The current message, once all of it is there. */
  function Current(s: Incoming): Option<Partial>
    requires |s.slots| == MAX_FLIGHT
  {
    match s.slots[s.next % MAX_FLIGHT]
    case Some(p) => if Complete(p) then Some(p) else None
    case None => None
  }

  /** The body of a complete message. */
  function Assembled(p: Partial): (body: seq<u8>)
    requires Complete(p)
    ensures |body| == p.len
  {
    seq(p.len, k requires 0 <= k < p.len => p.bytes[k])
  }

  /** Releases the current message. The counter has 16 bits. */
  function Advance(s: Incoming): Incoming
    requires |s.slots| == MAX_FLIGHT
  {
    Incoming((s.next + 1) % U16, s.slots[s.next % MAX_FLIGHT := None])
  }

  // ---------------------------------------------------------------- the ring

  lemma ValidFresh()
    ensures Valid(Fresh())
  {
  }

  /** Whatever arrives, honest or not, every slot keeps to its index and to the window. */
  lemma ReceiveValid(s: Incoming, f: Fragment, epoch: nat, maxLen: nat)
    requires Valid(s) && f.num < U16
    ensures Valid(Receive(s, f, epoch, maxLen).s)
  {
    if Receive(s, f, epoch, maxLen).Taken? && s.next <= f.num < s.next + MAX_FLIGHT {
      var i := f.num % MAX_FLIGHT;
      SameSlotSameNumber(s, f);
      var p := Owner(s, f);
      assert InSlot(s.next, i, p);
      assert InSlot(s.next, i, Extend(p, f));
    }
  }

  /**
   What a fragment must not be: longer than its message or the message than allowed, under keys another than the
   next, just behind the window, or in disagreement with what there is of its message.
   */
  predicate Refused(s: Incoming, f: Fragment, epoch: nat, maxLen: nat)
    requires |s.slots| == 7
  {
    || f.off + |f.body| > f.msgLen || f.msgLen > maxLen
    || (epoch == 1 && f.num != s.next)
    || f.num == s.next + 7
    || (s.next <= f.num < s.next + 7 && s.slots[f.num % 7].Some?
        && (s.slots[f.num % 7].value.typ != f.typ || s.slots[f.num % 7].value.len != f.msgLen))
  }

  lemma RefusedIff(s: Incoming, f: Fragment, epoch: nat, maxLen: nat)
    requires |s.slots| == 7
    ensures Receive(s, f, epoch, maxLen).Failed? <==> Refused(s, f, epoch, maxLen)
  {
    hide Extend;
  }

  /** A message with one fragment more: exactly its bytes, unless there is nothing more to come. */
  ghost predicate Added(p: Partial, f: Fragment, bytes: map<nat, u8>) {
    && p.typ == f.typ && p.num == f.num && p.len == f.msgLen
    && if forall k :: 0 <= k < f.msgLen ==> k in bytes then p.bytes == bytes
       else forall k: nat ::
         && (k in p.bytes <==> k in bytes || f.off <= k < f.off + |f.body|)
         && (f.off <= k < f.off + |f.body| ==> p.bytes[k] == f.body[k - f.off])
         && (k in bytes && !(f.off <= k < f.off + |f.body|) ==> p.bytes[k] == bytes[k])
  }

  lemma ExtendAdds(p: Partial, f: Fragment)
    requires p.typ == f.typ && p.num == f.num && p.len == f.msgLen
    ensures Added(Extend(p, f), f, p.bytes)
  {
  }

  /**
   What any fragment does, whoever sent it. A fragment that is refused, or is outside the window, changes nothing. One
   in the window adds its bytes to its message and touches no other, and a message that is complete stays as it is.
   */
  lemma ReceiveIs(s: Incoming, f: Fragment, epoch: nat, maxLen: nat)
    requires Valid(s) && f.num < U16
    ensures var r, i := Receive(s, f, epoch, maxLen), f.num % 7;
            && (r.Failed? <==> Refused(s, f, epoch, maxLen))
            && (r.Failed? || f.num < s.next || f.num > s.next + 7 ==> r.s == s)
            && r.s.next == s.next && (forall j :: 0 <= j < 7 && j != i ==> r.s.slots[j] == s.slots[j])
            && (r.Taken? && s.next <= f.num < s.next + 7 ==>
                  && r.s.slots[i].Some?
                  && Added(r.s.slots[i].value, f, if s.slots[i].Some? then s.slots[i].value.bytes else map[]))
  {
    hide Refused, Extend, Added;
    RefusedIff(s, f, epoch, maxLen);
    if Receive(s, f, epoch, maxLen).Taken? && s.next <= f.num < s.next + 7 {
      SameSlotSameNumber(s, f);
      ExtendAdds(Owner(s, f), f);
    }
  }

  /** In the window, the number is determined by the slot. */
  lemma SameSlotSameNumber(s: Incoming, f: Fragment)
    requires Valid(s) && s.next <= f.num < s.next + MAX_FLIGHT
    ensures Owner(s, f).num == f.num
  {
    if s.slots[f.num % MAX_FLIGHT].Some? {
      assert InSlot(s.next, f.num % MAX_FLIGHT, Owner(s, f));
    }
  }

  /**
   Releasing the current message keeps the ring valid even when the counter wraps: no slot can then hold
   another message, because their numbers would not fit 16 bits.
   */
  lemma AdvanceValid(s: Incoming)
    requires Valid(s)
    ensures Valid(Advance(s))
    ensures s.next == U16 - 1 ==> Advance(s) == Fresh()
  {
    var s' := Advance(s);
    forall i | 0 <= i < MAX_FLIGHT && s'.slots[i].Some?
      ensures InSlot(s.next + 1, i, s'.slots[i].value) && s.next + 1 < U16
    {
      assert InSlot(s.next, i, s.slots[i].value);
    }
    if s.next == U16 - 1 {
      assert s'.slots == Fresh().slots;
    }
  }

  lemma {:induction false} RecordValid(s: Incoming, record: seq<u8>, epoch: nat, maxLen: nat)
    requires |s.slots| == MAX_FLIGHT && Valid(s)
    ensures Valid(ReceiveRecord(s, record, epoch, maxLen).s)
    decreases |record|
  {
    hide Parse, Receive, Valid;
    if record != [] && Parse(record).Got? {
      var f := Parse(record).value;
      ReceiveValid(s, f, epoch, maxLen);
      if Receive(s, f, epoch, maxLen).Taken? {
        RecordValid(Receive(s, f, epoch, maxLen).s, Parse(record).rest, epoch, maxLen);
      }
    }
  }

  // ---------------------------------------------------------------- records

  /** A sender packs any number of fragments into a record. */
  function Framed(fs: seq<Fragment>): seq<u8> {
    if fs == [] then [] else Bytes(fs[0]) + Framed(fs[1..])
  }

  function ReceiveEach(s: Incoming, fs: seq<Fragment>, epoch: nat, maxLen: nat): Outcome
    requires |s.slots| == MAX_FLIGHT
    decreases |fs|
  {
    if fs == [] then Taken(s)
    else match Receive(s, fs[0], epoch, maxLen)
      case Failed(s', alert) => Failed(s', alert)
      case Taken(s') => ReceiveEach(s', fs[1..], epoch, maxLen)
  }

  /** How fragments are packed into a record does not matter: each is taken in turn, up to the first error. */
  lemma {:induction false} RecordOfFragments(s: Incoming, fs: seq<Fragment>, epoch: nat, maxLen: nat)
    requires |s.slots| == MAX_FLIGHT && forall i :: 0 <= i < |fs| ==> Fits(fs[i])
    ensures ReceiveRecord(s, Framed(fs), epoch, maxLen) == ReceiveEach(s, fs, epoch, maxLen)
    decreases |fs|
  {
    hide Parse, Receive, Bytes;
    if fs != [] {
      ParseOfBytes(fs[0], Framed(fs[1..]));
      if Receive(s, fs[0], epoch, maxLen).Taken? {
        RecordOfFragments(Receive(s, fs[0], epoch, maxLen).s, fs[1..], epoch, maxLen);
      }
    }
  }
}
