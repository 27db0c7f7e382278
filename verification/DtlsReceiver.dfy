/**
 The receiving side of the DTLS handshake over mutable state: message buffers and bitmasks written in
 place, in a ring of seven slots. Proved against the functions of DtlsIncoming.
 */
module DtlsReceiver {
  import opened Prelude
  import opened DtlsFragment
  import opened DtlsIncoming
  import opened DtlsMask

  /** An incoming message, possibly not yet assembled. `reassembly` is null once it is complete. */
  class HmFragment {
    const typ: u8
    const num: nat
    const msgLen: nat
    const data: array<u8>
    var reassembly: array?<bv8>
    ghost var bytes: map<nat, u8>

    ghost predicate Valid()
      reads this, data, reassembly
    {
      Stored() && Masked()
    }

    /** The buffer has the bytes that have arrived, behind the header of an unfragmented message. */
    ghost predicate Stored()
      reads this, data
    {
      && data.Length == HEADER + msgLen
      && data[..HEADER] == Header(typ, msgLen, num, 0, msgLen)
      && (forall k :: k in bytes ==> k < msgLen && data[HEADER + k] == bytes[k])
    }

    /** The bitmask has just the bytes that have arrived. */
    ghost predicate Masked()
      reads this, reassembly
    {
      && (reassembly == null <==> Complete(View()))
      && (reassembly != null ==> reassembly.Length == (msgLen + 7) / 8 && Shows(reassembly[..], bytes))
    }

    ghost function View(): Partial
      reads this
    {
      Partial(typ, num, msgLen, bytes)
    }

    constructor (f: Fragment)
      ensures Valid() && View() == Partial(f.typ, f.num, f.msgLen, map[])
      ensures fresh(data) && (reassembly != null ==> fresh(reassembly))
    {
      typ, num, msgLen := f.typ, f.num, f.msgLen;
      data := new u8[HEADER + f.msgLen];
      bytes := map[];
      reassembly := null;
      new;
      var header := Header(typ, msgLen, num, 0, msgLen);
      forall k | 0 <= k < HEADER {
        data[k] := header[k];
      }
      if msgLen > 0 {
        reassembly := new bv8[(msgLen + 7) / 8](_ => 0);
        assert 0 !in bytes;
        forall k: nat | k < 8 * reassembly.Length
          ensures !Marked(reassembly[..], k)
        {
          ZeroBits(k % 8);
        }
      }
    }

    /** Copies the body into place and marks it; when nothing is missing, the bitmask goes. */
    method Store(f: Fragment)
      requires Valid() && reassembly != null && f.off + |f.body| <= msgLen
      modifies this`reassembly, this`bytes, data, reassembly
      ensures Valid() && View() == old(View()).(bytes := old(bytes) + Brought(f))
      ensures reassembly == null || reassembly == old(reassembly)
    {
      hide Shows, Complete, Header;
      ghost var got := bytes + Brought(f);
      forall k: nat
        ensures k in got <==> k in bytes || f.off <= k < f.off + |f.body|
      {
        assert k in Brought(f) <==> Covers(f, k);
      }
      forall k | 0 <= k < |f.body| {
        data[HEADER + f.off + k] := f.body[k];
      }
      assert data[..HEADER] == old(data[..HEADER]) && reassembly[..] == old(reassembly[..]);
      Mark(f.off, f.off + |f.body|, got);
    }

    method Mark(start: nat, end: nat, ghost got: map<nat, u8>)
      requires Masked() && reassembly != null && start <= end <= msgLen
      requires forall k: nat :: k in got <==> k in bytes || start <= k < end
      requires forall k :: k in got ==> k < msgLen
      modifies this`reassembly, this`bytes, reassembly
      ensures Masked() && bytes == got
      ensures reassembly == null || reassembly == old(reassembly)
    {
      hide Marked;
      var mask := reassembly;
      if start == end {
        bytes := got;
        return;
      }
      MarkRange(mask, start, end);
      bytes := got;
      assert Shows(mask[..], got);
      ghost var p, m := View(), mask[..];
      FullIsComplete(m, p);
      var full := AllMarked(mask, msgLen);
      assert mask[..] == m;
      if full {
        reassembly := null;
      }
      assert View() == p;
    }
  }

  predicate Shows(mask: seq<bv8>, bytes: map<nat, u8>) {
    forall k: nat :: k < 8 * |mask| ==> (Marked(mask, k) <==> k in bytes)
  }

  lemma FullIsComplete(mask: seq<bv8>, p: Partial)
    requires p.len <= 8 * |mask| && Shows(mask, p.bytes)
    ensures Complete(p) <==> forall k :: 0 <= k < p.len ==> Marked(mask, k)
  {
    hide Marked;
    forall k | 0 <= k < p.len
      ensures Marked(mask, k) <==> k in p.bytes
    {
    }
  }

  lemma ZeroBits(k: nat)
    requires k < 8
    ensures !BitOf(0, k)
  {
    FullByte();
    BitRangeBits(0, 0, k);
  }

  class Receiver {
    var next: nat
    const slots: array<HmFragment?>
    ghost var repr: set<object>
    ghost var view: Incoming

    /** The slots own their buffers and hold what `view` says: messages of the window, each in its place. */
    ghost predicate Valid()
      reads this, slots, repr
    {
      && this !in repr && slots !in repr && slots.Length == MAX_FLIGHT
      && next == view.next && DtlsIncoming.Valid(view)
      && (forall i :: 0 <= i < MAX_FLIGHT ==> Linked(i))
      && (forall i, j :: 0 <= i < j < MAX_FLIGHT && slots[i] != null && slots[j] != null ==>
            slots[i] in repr && slots[j] in repr && Apart(slots[i], slots[j]))
    }

    ghost predicate Linked(i: nat)
      requires i < slots.Length && i < |view.slots|
      reads this, slots, repr
    {
      if slots[i] == null then view.slots[i] == None
      else
        && slots[i] in repr && slots[i].data in repr && (slots[i].reassembly != null ==> slots[i].reassembly in repr)
        && slots[i].Valid()
        && view.slots[i] == Some(slots[i].View())
    }

    constructor ()
      ensures Valid() && fresh(slots) && fresh(repr) && view == Fresh()
    {
      next := 0;
      slots := new HmFragment?[MAX_FLIGHT](_ => null);
      repr := {};
      view := Fresh();
    }

    /** The message that a fragment of the window belongs to, or null when the fragment does not match it. */
    method GetIncoming(f: Fragment) returns (frag: HmFragment?, alert: Alert)
      requires Valid() && f.num < U16
      modifies this`repr, this`view, slots
      ensures Valid() && fresh(repr - old(repr))
      ensures frag == null <==> f.num < next || f.num - next >= MAX_FLIGHT || !Matches(Owner(old(view), f), f)
      ensures frag == null ==> view == old(view)
      ensures frag == null ==> alert == if f.num < next || f.num - next >= MAX_FLIGHT then InternalError else IllegalParameter
      ensures frag != null ==> frag == slots[f.num % MAX_FLIGHT] && frag.View() == Owner(old(view), f)
      ensures frag != null ==> view == old(view).(slots := old(view).slots[f.num % MAX_FLIGHT := Some(Owner(old(view), f))])
    {
      hide HmFragment.Stored, HmFragment.Masked, InSlot, Apart;
      alert := InternalError;
      frag := null;
      if f.num < next || f.num - next >= MAX_FLIGHT {
        return;
      }
      var i := f.num % MAX_FLIGHT;
      assert Linked(i);
      if slots[i] != null {
        SameSlotSameNumber(view, f);
        assert slots[i].num == f.num;
        if slots[i].typ != f.typ || slots[i].msgLen != f.msgLen {
          alert := IllegalParameter;
          return;
        }
        frag := slots[i];
        return;
      }
      Install(i, f);
      frag := slots[i];
      assert Linked(i);
    }

    method Install(i: nat, f: Fragment)
      requires Valid() && i == f.num % MAX_FLIGHT && slots[i] == null && next <= f.num < next + MAX_FLIGHT && f.num < U16
      modifies this`repr, this`view, slots
      ensures Valid() && fresh(repr - old(repr)) && slots[i] != null
      ensures view == old(view).(slots := old(view).slots[i := Some(Partial(f.typ, f.num, f.msgLen, map[]))])
    {
      hide HmFragment.Valid, InSlot, DtlsIncoming.Valid, Linked;
      WindowSlots(view);
      NewInSlot(view, f);
      var frag := new HmFragment(f);
      PutAt(i, frag);
    }

    /** Puts a message of its own into an empty slot. */
    method PutAt(i: nat, frag: HmFragment)
      requires Valid() && i < MAX_FLIGHT && slots[i] == null && frag.Valid()
      requires Footprint(frag) !! repr && this !in Footprint(frag) && slots !in Footprint(frag)
      requires DtlsIncoming.Valid(view.(slots := view.slots[i := Some(frag.View())]))
      modifies this`repr, this`view, slots
      ensures Valid() && repr == old(repr) + Footprint(frag) && slots[i] == frag
      ensures view == old(view).(slots := old(view).slots[i := Some(frag.View())])
    {
      hide HmFragment.Valid, DtlsIncoming.Valid;
      WindowSlots(view);
      assert forall j :: 0 <= j < MAX_FLIGHT ==> Linked(j);
      forall j | 0 <= j < MAX_FLIGHT && slots[j] != null
        ensures Footprint(slots[j]) <= repr
      {
        assert Linked(j);
      }
      slots[i] := frag;
      repr := repr + Footprint(frag);
      view := view.(slots := view.slots[i := Some(frag.View())]);
      forall j | 0 <= j < MAX_FLIGHT
        ensures Linked(j)
      {
        assert j != i ==> slots[j] == old(slots[j]) && old(Linked(j));
      }
      forall j, k | 0 <= j < k < MAX_FLIGHT && slots[j] != null && slots[k] != null
        ensures slots[j] in repr && slots[k] in repr && Apart(slots[j], slots[k])
      {
        assert Linked(j) && Linked(k);
        assert j != i ==> slots[j] == old(slots[j]) && old(Footprint(slots[j])) <= old(repr);
        assert k != i ==> slots[k] == old(slots[k]) && old(Footprint(slots[k])) <= old(repr);
        assert j != i && k != i ==> old(Apart(slots[j], slots[k]));
      }
    }

    /** Writes a fragment into its message, leaving every other message alone. */
    method StoreAt(i: nat, frag: HmFragment, f: Fragment)
      requires Valid() && i < MAX_FLIGHT && slots[i] == frag && frag.reassembly != null
      requires f.off + |f.body| <= frag.msgLen
      modifies this`view, frag`reassembly, frag`bytes, frag.data, frag.reassembly
      ensures Valid()
      ensures view == old(view).(slots := old(view).slots[i := Some(Extend(old(frag.View()), f))])
    {
      hide HmFragment.Stored, HmFragment.Masked, DtlsIncoming.Valid, Complete;
      WindowSlots(view);
      assert Linked(i) && forall j :: 0 <= j < MAX_FLIGHT ==> Linked(j);
      ghost var p := frag.View();
      Reassembled(frag);
      ExtendValid(view, i, p, f);
      frag.Store(f);
      assert frag.View() == Extend(p, f);
      view := view.(slots := view.slots[i := Some(Extend(p, f))]);
      forall j | 0 <= j < MAX_FLIGHT
        ensures Linked(j)
      {
        assert old(Linked(j));
        if j != i && slots[j] != null {
          assert old(if i < j then Apart(frag, slots[j]) else Apart(slots[j], frag));
          assert slots[j] !in old(Footprint(frag)) && slots[j].data !in old(Footprint(frag));
          assert slots[j].reassembly == old(slots[j].reassembly) && slots[j].reassembly !in old(Footprint(frag));
          assert slots[j].Valid();
        } else if j == i {
          assert frag.Valid() && view.slots[i] == Some(frag.View());
        }
      }
    }

    method Receive(f: Fragment, epoch: nat, maxLen: nat) returns (ok: bool, alert: Alert)
      requires Valid() && f.num < U16
      modifies this`repr, this`view, slots, repr
      ensures Valid() && fresh(repr - old(repr))
      ensures DtlsIncoming.Receive(old(view), f, epoch, maxLen) == if ok then Taken(view) else Failed(view, alert)
    {
      hide HmFragment.Valid, DtlsIncoming.Valid, Apart, InSlot, Complete;
      WindowSlots(view);
      ok, alert := false, IllegalParameter;
      if f.off > f.msgLen || f.off + |f.body| > f.msgLen || f.msgLen > maxLen {
        return;
      }
      if epoch == 1 && f.num != next {
        alert := UnexpectedMessage;
        return;
      }
      if f.num < next || f.num > next + MAX_FLIGHT {
        ok := true;
        return;
      }
      var frag: HmFragment?;
      frag, alert := GetIncoming(f);
      if frag == null {
        return;
      }
      ok := true;
      assert Linked(f.num % MAX_FLIGHT);
      Reassembled(frag);
      if frag.reassembly == null {
        return;
      }
      StoreAt(f.num % MAX_FLIGHT, frag, f);
    }

    /** Takes the fragments of a record one after the other. */
    method OpenHandshake(record: seq<u8>, epoch: nat, maxLen: nat) returns (ok: bool, alert: Alert)
      requires Valid()
      modifies this`repr, this`view, slots, repr
      ensures Valid() && fresh(repr - old(repr))
      ensures ReceiveRecord(old(view), record, epoch, maxLen) == if ok then Taken(view) else Failed(view, alert)
    {
      hide Parse, DtlsIncoming.Receive, Linked, Apart, InSlot;
      var rest := record;
      while rest != []
        invariant Valid() && fresh(repr - old(repr))
        invariant ReceiveRecord(old(view), record, epoch, maxLen) == ReceiveRecord(view, rest, epoch, maxLen)
        decreases |rest|
      {
        var parsed := Parse(rest);
        if parsed.Fail? {
          return false, DecodeError;
        }
        ok, alert := Receive(parsed.value, epoch, maxLen);
        if !ok {
          return;
        }
        rest := parsed.rest;
      }
      return true, DecodeError;
    }

    method IsCurrentComplete() returns (complete: bool)
      requires Valid()
      ensures complete <==> Current(view).Some?
    {
      hide HmFragment.Stored, Apart, InSlot;
      var i := next % MAX_FLIGHT;
      assert Linked(i);
      return slots[i] != null && slots[i].reassembly == null;
    }

    /** The current message as one unfragmented message: its header and its body. */
    method GetMessage() returns (m: Option<seq<u8>>)
      requires Valid()
      ensures m.Some? <==> Current(view).Some?
      ensures m.Some? ==>
                var p := Current(view).value;
                m.value == Header(p.typ, p.len, p.num, 0, p.len) + Assembled(p)
    {
      hide Apart, InSlot, Header;
      var complete := IsCurrentComplete();
      if !complete {
        return None;
      }
      var i := next % MAX_FLIGHT;
      assert Linked(i);
      var frag := slots[i];
      assert frag.data[HEADER..] == Assembled(frag.View());
      assert frag.data[..] == frag.data[..HEADER] + frag.data[HEADER..];
      return Some(frag.data[..]);
    }

    /** Releases the current message. */
    method NextMessage()
      requires Valid() && Current(view).Some?
      modifies this`next, this`view, slots
      ensures Valid() && view == Advance(old(view))
    {
      hide HmFragment.Valid, DtlsIncoming.Valid, Apart, Current;
      WindowSlots(view);
      AdvanceValid(view);
      assert forall j :: 0 <= j < MAX_FLIGHT ==> Linked(j);
      var i := next % MAX_FLIGHT;
      slots[i] := null;
      next := (next + 1) % U16;
      view := Advance(view);
      forall j | 0 <= j < MAX_FLIGHT
        ensures Linked(j)
      {
        assert j != i ==> slots[j] == old(slots[j]) && old(Linked(j));
      }
    }
  }

  predicate Matches(p: Partial, f: Fragment) {
    p.typ == f.typ && p.len == f.msgLen
  }

  ghost function Footprint(a: HmFragment): set<object>
    reads a
  {
    {a, a.data} + (if a.reassembly == null then {} else {a.reassembly})
  }

  ghost predicate Apart(a: HmFragment, b: HmFragment)
    reads a, b
  {
    Footprint(a) !! Footprint(b)
  }

  lemma WindowSlots(s: Incoming)
    requires DtlsIncoming.Valid(s)
    ensures |s.slots| == MAX_FLIGHT && s.next < U16
  {
  }

  lemma NewInSlot(s: Incoming, f: Fragment)
    requires DtlsIncoming.Valid(s) && s.next <= f.num < s.next + MAX_FLIGHT && f.num < U16
    ensures DtlsIncoming.Valid(s.(slots := s.slots[f.num % MAX_FLIGHT := Some(Partial(f.typ, f.num, f.msgLen, map[]))]))
  {
  }

  lemma ExtendValid(s: Incoming, i: nat, p: Partial, f: Fragment)
    requires DtlsIncoming.Valid(s) && i < |s.slots| && s.slots[i] == Some(p) && f.off + |f.body| <= p.len
    ensures DtlsIncoming.Valid(s.(slots := s.slots[i := Some(Extend(p, f))]))
  {
    assert InSlot(s.next, i, p);
    assert InSlot(s.next, i, Extend(p, f));
  }

  lemma Reassembled(frag: HmFragment)
    requires frag.Valid()
    ensures frag.reassembly == null <==> Complete(frag.View())
  {
  }
}
