/**
 The sending side of the DTLS handshake: a flight is cut into records and packets of at most the MTU,
 over a transport that may refuse a packet at any time.
 */
module DtlsSender {
  import opened Prelude
  import opened DtlsFragment
  import opened DtlsIncoming
  import opened DtlsFlight
  import opened DtlsPacking
  import W = DtlsWriter

  const MIN_MTU := 228
  const DEFAULT_MTU := 1472

  /** The records of a packet, the items they carry, and its length. */
  datatype Packet = Packet(items: seq<Item>, records: seq<W.Record>, len: nat)

  datatype SealResult = SealError | NoProgress | Partial | Success

  /** The transport: its answers are fixed in advance, in any pattern; a packet it takes is sent. */
  class Transport {
    var answers: seq<int>
    var sent: seq<Packet>
    const mtuAnswer: int

    constructor (answers: seq<int>, mtuAnswer: int)
      ensures this.answers == answers && sent == [] && this.mtuAnswer == mtuAnswer
    {
      this.answers, sent, this.mtuAnswer := answers, [], mtuAnswer;
    }

    method Answer() returns (r: int)
      modifies this`answers
      ensures r == if old(answers) == [] then -1 else old(answers)[0]
      ensures answers == if old(answers) == [] then [] else old(answers)[1..]
    {
      if answers == [] {
        return -1;
      }
      r := answers[0];
      answers := answers[1..];
    }

    method Write(p: Packet) returns (r: int)
      modifies this
      ensures r == if old(answers) == [] then -1 else old(answers)[0]
      ensures answers == if old(answers) == [] then [] else old(answers)[1..]
      ensures sent == if r > 0 then old(sent) + [p] else old(sent)
    {
      r := Answer();
      if r > 0 {
        sent := sent + [p];
      }
    }
  }

  /** The first `n` answers are there and each takes what it is offered. */
  predicate Accepting(answers: seq<int>, n: nat) {
    n <= |answers| && forall k :: 0 <= k < n ==> answers[k] > 0
  }

  lemma NoneAccepting(answers: seq<int>)
    ensures Accepting(answers, 0) && answers[0..] == answers
  {
  }

  lemma NextAccepting(answers: seq<int>, n: nat)
    requires Accepting(answers, n)
    ensures Accepting(answers, n + 1) <==> answers[n..] != [] && answers[n..][0] > 0
    ensures answers[n..] != [] ==> answers[n..][1..] == answers[n + 1..]
    ensures n <= |answers|
  {
  }

  /** A useless MTU is replaced by the transport's answer if that is usable, and by the default otherwise. */
  function KnownMtu(noQuery: bool, mtu: nat, answer: int): nat {
    if mtu >= MIN_MTU || noQuery then mtu
    else if MIN_MTU <= answer <= 0x4000_0000 then answer else DEFAULT_MTU
  }

  /** The MTU stays below the minimum exactly when it was there and the transport may not be asked. */
  lemma MtuAsserted(noQuery: bool, mtu: nat, answer: int)
    ensures KnownMtu(noQuery, mtu, answer) >= MIN_MTU <==> mtu >= MIN_MTU || !noQuery
    ensures KnownMtu(true, 100, answer) < MIN_MTU
  {
  }

  function ItemsOf(ps: seq<Packet>): seq<Item> {
    if ps == [] then [] else ItemsOf(ps[..|ps| - 1]) + ps[|ps| - 1].items
  }

  /** The records of a packet carry its items, one each, under the epoch that the flight gives them. */
  predicate Carries(r: W.Record, item: Item) {
    match item
    case Ccs => r.typ == 20 && r.plain == [1]
    case Frag(f) => r.typ == 22 && r.plain == Bytes(f)
  }

  predicate PacketOk(p: Packet, mtu: nat) {
    && 0 < p.len <= mtu
    && |p.records| == |p.items| > 0
    && forall k :: 0 <= k < |p.items| ==> Carries(p.records[k], p.items[k])
  }

  /** Messages are numbered as they are queued, modulo 2^16; a flight has at most seven items. */
  predicate Numbered(flight: seq<Outgoing>, numbers: seq<nat>, writeSeq: nat, total: nat) {
    && |numbers| == |flight| <= MAX_FLIGHT && writeSeq == total % U16
    && (forall i :: 0 <= i < |flight| && !flight[i].isCcs ==>
          && Whole(flight[i]).Some? && Whole(flight[i]).value.num == numbers[i] % U16
          && numbers[i] < total <= numbers[i] + |flight| - i)
    && (forall i, j :: 0 <= i < j < |flight| && !flight[i].isCcs && !flight[j].isCcs ==> numbers[i] < numbers[j])
  }

  class Sender {
    const aead: W.Aead
    const noQuery: bool
    var epoch: nat
    var num: nat
    var lastNum: nat
    var flight: seq<Outgoing>
    var written: nat
    var offset: nat
    var complete: bool
    var writeSeq: nat
    var mtu: nat
    ghost var writer: W.Writer
    ghost var total: nat
    ghost var numbers: seq<nat>
    ghost var delivered: seq<Item>
    ghost var broken: bool

    ghost predicate CountersLinked()
      reads this`epoch, this`num, this`lastNum, this`writer
    {
      && writer.epoch == epoch && writer.num == num && writer.lastNum == lastNum
      && W.CountersOk(writer) && W.Good(writer) && W.LengthsOk(aead)
    }

    ghost predicate FlightOk()
      reads this`flight, this`written, this`offset, this`delivered, this`broken
    {
      && WellFormedFlight(flight) && Distinct(flight) && CursorOk(flight, Cursor(written, offset))
      && (!broken ==> SentAll(flight, Cursor(0, 0), delivered) == Some(Cursor(written, offset)))
    }

    /** Seals one record. */
    method SealRecord(previous: bool, typ: u8, plain: seq<u8>, room: nat) returns (ok: bool, r: W.Record, len: nat)
      requires CountersLinked() && (previous ==> epoch >= 1)
      modifies this`num, this`lastNum, this`writer
      ensures CountersLinked()
      ensures writer == W.Seal(aead, old(writer), previous, typ, plain, room).1
      ensures ok <==> W.Seal(aead, old(writer), previous, typ, plain, room).0.Done?
      ensures ok ==> W.Seal(aead, old(writer), previous, typ, plain, room).0 == W.Done(r, len)
      ensures !ok ==> writer.wrapped || room < len || len >= 0x1_0000
      ensures len == W.RECORD_HEADER + aead.size(r.epoch, |plain|)
    {
      W.SealGood(aead, writer, previous, typ, plain, room);
      ghost var after := W.Seal(aead, writer, previous, typ, plain, room).1;
      var e, n := if previous then epoch - 1 else epoch, if previous then lastNum else num;
      var size := aead.size(e, |plain|);
      r := W.Record(e, n, typ, plain);
      len := W.RECORD_HEADER + size;
      ok := false;
      if room < W.RECORD_HEADER || size > room - W.RECORD_HEADER {
        return;
      }
      var next := (n + 1) % W.SEQ_SPACE;
      if previous {
        lastNum := next;
      } else {
        num := next;
      }
      writer := after;
      if next == 0 || size >= 0x1_0000 {
        return;
      }
      ok := true;
    }

    /** Seals the next stretch of the item at the cursor, as long as the room allows. */
    method SealNextMessage(room: nat) returns (res: SealResult, item: Item, r: W.Record, len: nat)
      requires CountersLinked() && WellFormedFlight(flight) && CursorOk(flight, Cursor(written, offset)) && written < |flight|
      modifies this`num, this`lastNum, this`writer, this`offset
      ensures CountersLinked() && CursorOk(flight, Cursor(written, old(offset)))
      ensures res == NoProgress <==> EpochKnown(old(writer), flight[written]) && room < Needed(aead, flight[written])
      ensures res.NoProgress? || !EpochKnown(old(writer), flight[written]) ==> writer == old(writer)
      ensures !EpochKnown(old(writer), flight[written]) ==> res == SealError
      ensures EpochKnown(old(writer), flight[written]) && room >= Needed(aead, flight[written]) ==>
                && item == NextItem(aead, flight, Cursor(written, old(offset)), room)
                && Seals(res, r, len, SealItem(aead, old(writer), flight[written], item, room))
      ensures res.SealError? || res.NoProgress? ==> offset == old(offset)
      ensures res.Partial? || res.Success? ==> 0 < len <= room && Carries(r, item) && r.epoch == flight[written].epoch
      ensures res.Partial? ==> Sent(flight, Cursor(written, old(offset)), item) == Some(Cursor(written, offset))
      ensures res.Success? ==> offset == 0 && Sent(flight, Cursor(written, old(offset)), item) == Some(Cursor(written + 1, 0))
    {
      hide Parse, Bytes, W.Good;
      var m := flight[written];
      assert WellFormedItem(m);
      item, len := Ccs, 0;
      r := W.Record(0, 0, 0, []);
      res := SealError;
      var previous := false;
      if epoch >= 1 && m.epoch == epoch - 1 {
        previous := true;
      } else if m.epoch != epoch {
        return;
      }
      if m.isCcs {
        if room < 1 + W.RECORD_HEADER + aead.maxOverhead(m.epoch) {
          return NoProgress, item, r, len;
        }
        var ok: bool;
        ok, r, len := SealRecord(previous, RT_CHANGE_CIPHER_SPEC, [1], room);
        if ok {
          res := Success;
        }
        return;
      }
      res, item, r, len := SealStretch(Whole(m).value, m.epoch, previous, room);
    }

    /** The result that goes with the outcome of sealing one record. */
    ghost predicate Seals(res: SealResult, r: W.Record, len: nat, outcome: (W.Sealing, W.Writer))
      reads this`writer
    {
      writer == outcome.1 && if res.SealError? then !outcome.0.Done? else outcome.0 == W.Done(r, len)
    }

    /** Seals as much of the body behind the offset as the room allows, as one fragment. */
    method SealStretch(whole: Fragment, e: nat, previous: bool, room: nat)
      returns (res: SealResult, item: Item, r: W.Record, len: nat)
      requires CountersLinked() && (offset < |whole.body| || offset == 0) && |whole.body| == whole.msgLen
      requires if previous then e + 1 == epoch else e == epoch
      modifies this`num, this`lastNum, this`writer, this`offset
      ensures CountersLinked()
      ensures res == NoProgress <==> room < Overhead(aead, e) + HEADER + 1
      ensures res.NoProgress? ==> writer == old(writer)
      ensures res.SealError? || res.NoProgress? ==> offset == old(offset)
      ensures !res.NoProgress? ==>
                && item.Frag? && NextStretch(whole, old(offset), item.f)
                && (|item.f.body| == |whole.body| - old(offset) || |item.f.body| == room - HEADER - Overhead(aead, e))
                && |item.f.body| <= room - HEADER - Overhead(aead, e)
                && Seals(res, r, len, W.Seal(aead, old(writer), previous, RT_HANDSHAKE, Bytes(item.f), room))
      ensures res.Partial? || res.Success? ==> 0 < len <= room && r.epoch == e && Carries(r, item)
      ensures res.Partial? ==> offset == old(offset) + |item.f.body| < |whole.body|
      ensures res.Success? ==> offset == 0 && old(offset) + |item.f.body| == |whole.body|
    {
      hide Bytes, W.Good;
      item, len, r := Ccs, 0, W.Record(0, 0, 0, []);
      var overhead := W.RECORD_HEADER + aead.maxOverhead(e);
      var prefix := W.RECORD_HEADER + aead.nonceLen(e);
      var body := whole.body[offset..];
      if room < HEADER + 1 + overhead || room < prefix {
        return NoProgress, item, r, len;
      }
      var todo := |body|;
      if todo > room - HEADER - overhead {
        todo := room - HEADER - overhead;
      }
      var f := Fragment(whole.typ, whole.msgLen, whole.num, offset, body[..todo]);
      assert body[..todo] == whole.body[offset..offset + todo];
      item := Frag(f);
      var ok: bool;
      ok, r, len := SealRecord(previous, RT_HANDSHAKE, Bytes(f), room);
      if !ok {
        return SealError, item, r, len;
      }
      if todo == |body| {
        offset := 0;
        res := Success;
      } else {
        offset := offset + todo;
        res := SealResult.Partial;
      }
    }

    /** What sealing the next packet amounts to here. */
    ghost function Packs(room: nat): Packed
      requires CountersLinked() && WellFormedFlight(flight) && CursorOk(flight, Cursor(written, offset))
      reads this`epoch, this`num, this`lastNum, this`writer, this`flight, this`written, this`offset
    {
      Pack(aead, writer, flight, Cursor(written, offset), room, [])
    }

    /** As much of the flight as fits one packet. On an error the cursor stands behind what was sealed by then. */
    method SealNextPacket(room: nat) returns (ok: bool, p: Packet)
      requires CountersLinked() && WellFormedFlight(flight) && CursorOk(flight, Cursor(written, offset)) && written < |flight|
      modifies this`num, this`lastNum, this`writer, this`offset, this`written
      ensures CountersLinked() && CursorOk(flight, Cursor(written, offset))
      ensures ok ==> PacketOk(p, room)
      ensures Packed(ok, p.items, Cursor(written, offset), writer) == old(Packs(room))
      ensures SentAll(flight, Cursor(old(written), old(offset)), p.items) == Some(Cursor(written, offset))
    {
      hide SentAll, CursorOk, WellFormedFlight, Carries, W.Good, W.LengthsOk, NextItem, Needed, SealItem, Sent, EpochKnown;
      ghost var c := Cursor(written, offset);
      StartAt(flight, c);
      p := Packet([], [], 0);
      var left := room;
      while written < |flight|
        invariant CountersLinked() && CursorOk(flight, Cursor(written, offset))
        invariant written <= |flight| && (p.items == [] ==> written == old(written))
        invariant p.len + left == room && |p.records| == |p.items| && (p.items != [] <==> p.len > 0)
        invariant forall k :: 0 <= k < |p.items| ==> Carries(p.records[k], p.items[k])
        invariant SentAll(flight, c, p.items) == Some(Cursor(written, offset))
        invariant old(Packs(room)) == Pack(aead, writer, flight, Cursor(written, offset), left, p.items)
        decreases |flight| - written
      {
        var res, item, r, len := SealNextMessage(left);
        if res.SealError? {
          return false, p;
        }
        if res.NoProgress? {
          break;
        }
        SentSnoc(flight, c, p.items, item);
        left := left - len;
        p := Packet(p.items + [item], p.records + [r], p.len + len);
        if res.Partial? {
          break;
        }
        CursorStays(flight, Cursor(written + 1, 0));
        written := written + 1;
      }
      ok := p.items != [];
    }

    /** Raises a useless MTU to what the transport says, or to the default. */
    method UpdateMtu(bio: Transport)
      modifies this`mtu
      ensures mtu == KnownMtu(noQuery, old(mtu), bio.mtuAnswer)
      ensures mtu >= MIN_MTU <==> old(mtu) >= MIN_MTU || !noQuery
      ensures old(mtu) >= 228 || noQuery ==> mtu == old(mtu)
      ensures old(mtu) < 228 && !noQuery ==> mtu == if 228 <= bio.mtuAnswer <= 0x4000_0000 then bio.mtuAnswer else 1472
    {
      if mtu < MIN_MTU && !noQuery {
        if 0 <= bio.mtuAnswer <= 0x4000_0000 && bio.mtuAnswer >= MIN_MTU {
          mtu := bio.mtuAnswer;
        } else {
          mtu := DEFAULT_MTU;
        }
      }
    }

    /**
     One round: a packet is sealed and offered; if the transport refuses it, the cursor goes back. What has been
     delivered no longer tiles the flight exactly when sealing fails with items already in the packet.
     */
    method SendPacket(bio: Transport) returns (ok: bool, bioRet: int)
      requires CountersLinked() && FlightOk() && written < |flight|
      modifies this`num, this`lastNum, this`writer, this`offset, this`written, this`delivered, this`broken, bio
      ensures CountersLinked() && FlightOk()
      ensures ok <==> old(Packs(mtu)).ok
      ensures writer == old(Packs(mtu)).w
      ensures broken <==> old(broken) || Loses(old(Packs(mtu)))
      ensures broken && !old(broken) ==> SentAll(flight, Cursor(0, 0), delivered) == Some(Cursor(old(written), old(offset)))
      ensures !ok ==> bio.sent == old(bio.sent) && delivered == old(delivered) && Cursor(written, offset) == old(Packs(mtu)).c
      ensures !ok && !Loses(old(Packs(mtu))) ==> written == old(written) && offset == old(offset)
      ensures Loses(old(Packs(mtu))) ==> Further(flight, Cursor(old(written), old(offset)), Cursor(written, offset))
      ensures delivered == old(delivered) || (ok && bioRet > 0)
      ensures ok && bioRet <= 0 ==> bio.sent == old(bio.sent) && written == old(written) && offset == old(offset)
      ensures bio.answers == if !ok || old(bio.answers) == [] then old(bio.answers) else old(bio.answers)[1..]
      ensures ok ==> bioRet == if old(bio.answers) == [] then -1 else old(bio.answers)[0]
      ensures ok && bioRet > 0 ==>
                && |bio.sent| == |old(bio.sent)| + 1 && old(bio.sent) <= bio.sent
                && PacketOk(bio.sent[|old(bio.sent)|], mtu)
                && Cursor(written, offset) == old(Packs(mtu)).c
                && delivered == old(delivered) + bio.sent[|old(bio.sent)|].items
                && Further(flight, Cursor(old(written), old(offset)), Cursor(written, offset))
    {
      hide SentAll, CursorOk, WellFormedFlight, Distinct, W.Good, W.LengthsOk, PacketOk, Pack;
      ghost var c := Cursor(written, offset);
      var oldWritten, oldOffset := written, offset;
      var p: Packet;
      ok, p := SealNextPacket(mtu);
      if p.items != [] {
        SentForward(flight, c, p.items);
      } else {
        StartAt(flight, c);
      }
      bioRet := -1;
      if !ok {
        broken := broken || p.items != [];
        return;
      }
      bioRet := bio.Write(p);
      if bioRet <= 0 {
        written, offset := oldWritten, oldOffset;
        return;
      }
      PacketHasItems(p, mtu);
      if !broken {
        AtStart(flight);
        SentConcat(flight, Cursor(0, 0), delivered, p.items);
      }
      delivered := delivered + p.items;
    }

    /** Packets are above 64K, an item is of an unknown epoch, or a counter has come to its end. */
    ghost predicate Unsealable(room: nat)
      reads this`writer, this`flight
    {
      room > 0xFFFF || writer.wrapped || exists i :: 0 <= i < |flight| && !EpochKnown(writer, flight[i])
    }

    /** A caller can look at this before: packets of this size will not run into any of that. */
    ghost predicate Safe(room: nat)
      requires CursorOk(flight, Cursor(written, offset))
      reads this`writer, this`flight, this`written, this`offset
    {
      Sealable(writer, flight, Cursor(written, offset), room)
    }

    /** And every item finds room in a packet for some of it at least. */
    ghost predicate Roomy(room: nat)
      reads this`flight
    {
      forall i :: 0 <= i < |flight| ==> Needed(aead, flight[i]) <= room
    }

    ghost function StepsLeft(): nat
      requires CursorOk(flight, Cursor(written, offset))
      reads this`flight, this`written, this`offset
    {
      Steps(flight, Cursor(written, offset))
    }

    /** What has been delivered does not lead to the cursor. */
    ghost predicate Torn()
      requires WellFormedFlight(flight) && CursorOk(flight, Cursor(0, 0))
      reads this`flight, this`written, this`offset, this`delivered
    {
      SentAll(flight, Cursor(0, 0), delivered) != Some(Cursor(written, offset))
    }

    /** A round, with what a caller may have looked at before. */
    method SendNext(bio: Transport, ghost safe: bool) returns (ok: bool, bioRet: int)
      requires CountersLinked() && FlightOk() && written < |flight|
      requires CursorOk(flight, Cursor(written, offset)) && (safe ==> Safe(mtu))
      requires WellFormedFlight(flight) && CursorOk(flight, Cursor(0, 0))
      modifies this`num, this`lastNum, this`writer, this`offset, this`written, this`delivered, this`broken, bio
      ensures CountersLinked() && FlightOk() && CursorOk(flight, Cursor(written, offset))
      ensures ok || safe ==> broken == old(broken)
      ensures safe && ok && bioRet > 0 ==> Safe(mtu)
      ensures safe && Roomy(mtu) ==> ok && (bioRet > 0 ==> StepsLeft() < old(StepsLeft()))
      ensures bio.answers == if !ok || old(bio.answers) == [] then old(bio.answers) else old(bio.answers)[1..]
      ensures ok ==> bioRet == if old(bio.answers) == [] then -1 else old(bio.answers)[0]
      ensures broken && !old(broken) ==> Unsealable(mtu) && Torn()
      ensures !(ok && bioRet > 0) ==> bio.sent == old(bio.sent) && delivered == old(delivered)
      ensures ok && bioRet > 0 ==>
                && |bio.sent| == |old(bio.sent)| + 1 && bio.sent == old(bio.sent) + [bio.sent[|old(bio.sent)|]]
                && PacketOk(bio.sent[|old(bio.sent)|], mtu)
                && delivered == old(delivered) + bio.sent[|old(bio.sent)|].items
                && Further(flight, Cursor(old(written), old(offset)), Cursor(written, offset))
    {
      hide FlightOk, CountersLinked, PacketOk, CursorOk, Pack, Sealable, SentAll, WellFormedFlight, EpochKnown;
      CountersThere();
      PackFacts(mtu, safe);
      if safe && Roomy(mtu) {
        NextFits();
      }
      ok, bioRet := SendPacket(bio);
      InFlight();
    }

    lemma NextFits()
      requires CountersLinked() && FlightOk() && written < |flight| && Safe(mtu) && Roomy(mtu)
      ensures var p := Packs(mtu);
              p.ok && CursorOk(flight, p.c) && Steps(flight, p.c) < StepsLeft()
    {
      hide Pack, Sealable, W.LengthsOk, W.Good, Needed, Steps;
      W.GoodCounters(writer);
      FirstItemFits(aead, writer, flight, Cursor(written, offset), mtu);
    }

    lemma CountersThere()
      requires CountersLinked()
      ensures W.CountersOk(writer)
    {
    }

    /**
     Sends packets until the flight is out or the transport refuses one, which is then sealed again the
     next time. What has been delivered tiles the flight up to the cursor, unless sealing has failed with items
     already in a packet.
     */
    method SendFlight(bio: Transport) returns (ret: int, ghost ps: seq<Packet>)
      requires CountersLinked() && FlightOk()
      modifies this`num, this`lastNum, this`writer, this`offset, this`written, this`mtu, this`delivered, this`broken, bio
      ensures CountersLinked() && FlightOk() && WellFormedFlight(flight)
      ensures bio.sent == old(bio.sent) + ps && (forall k :: 0 <= k < |ps| ==> PacketOk(ps[k], mtu))
      ensures mtu == KnownMtu(noQuery, old(mtu), bio.mtuAnswer)
      ensures delivered == old(delivered) + ItemsOf(ps)
      ensures ret == 1 ==> written == |flight| && broken == old(broken)
      ensures broken && !old(broken) ==> Torn()
      ensures old(Safe(KnownMtu(noQuery, mtu, bio.mtuAnswer))) ==> broken == old(broken)
      ensures broken && !old(broken) ==> Unsealable(mtu)
      ensures ret == 1 || ret <= 0
      ensures Accepting(old(bio.answers), |ps|) && (ret == 1 ==> Accepting(old(bio.answers), |ps| + 1))
      ensures old(Safe(KnownMtu(noQuery, mtu, bio.mtuAnswer))) && Roomy(mtu) ==>
                |ps| <= old(StepsLeft()) && (ret == 1 <==> Accepting(old(bio.answers), |ps| + 1))
    {
      hide FlightOk, CountersLinked, PacketOk, CursorOk, ItemsOf, Safe, Unsealable, Torn, WellFormedFlight, Roomy, StepsLeft,
        Accepting, KnownMtu;
      Tiling();
      ghost var safe := Safe(KnownMtu(noQuery, mtu, bio.mtuAnswer));
      UpdateMtu(bio);
      ret, ps := SendRest(bio, safe);
      if ret <= 0 {
        return;
      }
      NextAccepting(old(bio.answers), |ps|);
      var flushed := bio.Answer();
      ret := if flushed <= 0 then -1 else 1;
    }

    /** The packets, one after the other. The result is 1 when all are out. */
    method SendRest(bio: Transport, ghost safe: bool) returns (ret: int, ghost ps: seq<Packet>)
      requires CountersLinked() && FlightOk() && CursorOk(flight, Cursor(written, offset)) && (safe ==> Safe(mtu))
      modifies this`num, this`lastNum, this`writer, this`offset, this`written, this`delivered, this`broken, bio
      ensures CountersLinked() && FlightOk() && WellFormedFlight(flight) && CursorOk(flight, Cursor(written, offset))
      ensures CursorOk(flight, Cursor(0, 0))
      ensures bio.sent == old(bio.sent) + ps && (forall k :: 0 <= k < |ps| ==> PacketOk(ps[k], mtu))
      ensures delivered == old(delivered) + ItemsOf(ps)
      ensures ret == 1 || ret <= 0
      ensures ret == 1 || safe ==> broken == old(broken)
      ensures ret == 1 ==> written == |flight|
      ensures broken && !old(broken) ==> Torn() && Unsealable(mtu)
      ensures |ps| <= |old(bio.answers)| && Accepting(old(bio.answers), |ps|)
      ensures ret == 1 ==> bio.answers == old(bio.answers)[|ps|..]
      ensures safe && Roomy(mtu) ==> |ps| <= old(StepsLeft()) && (ret <= 0 ==> !Accepting(old(bio.answers), |ps| + 1))
    {
      hide FlightOk, CountersLinked, PacketOk, Further, CursorOk, Left, ItemsOf, Safe, Unsealable, Torn, WellFormedFlight, Roomy,
        StepsLeft, Accepting;
      NoneAccepting(bio.answers);
      Tiling();
      ret := -1;
      ps := [];
      NoItems();
      InFlight();
      while written < |flight|
        invariant CountersLinked() && FlightOk() && broken == old(broken) && CursorOk(flight, Cursor(written, offset))
        invariant WellFormedFlight(flight) && CursorOk(flight, Cursor(0, 0))
        invariant bio.sent == old(bio.sent) + ps && forall k :: 0 <= k < |ps| ==> PacketOk(ps[k], mtu)
        invariant written <= |flight| && delivered == old(delivered) + ItemsOf(ps) && (safe ==> Safe(mtu))
        invariant |ps| <= |old(bio.answers)| && Accepting(old(bio.answers), |ps|) && bio.answers == old(bio.answers)[|ps|..]
        invariant safe && Roomy(mtu) ==> |ps| + StepsLeft() <= old(StepsLeft())
        decreases |flight| - written, Left(flight, Cursor(written, offset))
      {
        ghost var c := Cursor(written, offset);
        ghost var before := bio.sent;
        NextAccepting(old(bio.answers), |ps|);
        var ok, bioRet := SendNext(bio, safe);
        if !ok || bioRet <= 0 {
          return if ok then bioRet else -1, ps;
        }
        ghost var p := bio.sent[|before|];
        ItemsSnoc(ps, p);
        AllOk(ps, p, mtu);
        assert bio.sent == old(bio.sent) + ps + [p] == old(bio.sent) + (ps + [p]);
        assert delivered == old(delivered) + ItemsOf(ps) + p.items == old(delivered) + ItemsOf(ps + [p]);
        ps := ps + [p];
        InFlight();
        LeftForward(flight, c, Cursor(written, offset));
      }
      ret := 1;
    }

    lemma AllOk(ps: seq<Packet>, p: Packet, mtu: nat)
      requires (forall k :: 0 <= k < |ps| ==> PacketOk(ps[k], mtu)) && PacketOk(p, mtu)
      ensures forall k :: 0 <= k < |ps + [p]| ==> PacketOk((ps + [p])[k], mtu)
    {
      hide PacketOk;
    }

    /** What is known of the next packet before it is sealed. */
    lemma PackFacts(room: nat, safe: bool)
      requires CountersLinked() && WellFormedFlight(flight) && CursorOk(flight, Cursor(written, offset))
      requires safe ==> Safe(room)
      ensures var p := Packs(room);
              && CursorOk(flight, p.c)
              && (safe ==> !Loses(p) && Sealable(p.w, flight, p.c, room))
              && (Loses(p) ==> room > 0xFFFF || p.w.wrapped || exists i :: 0 <= i < |flight| && !EpochKnown(p.w, flight[i]))
    {
      hide Pack, Sealable, WellFormedFlight, CursorOk, W.LengthsOk, W.Good;
      W.GoodCounters(writer);
      var c := Cursor(written, offset);
      LosesBecause(aead, writer, flight, c, room, []);
      if safe {
        SealableNeverFails(aead, writer, flight, c, room, []);
      }
      var p := Packs(room);
      assert forall m :: EpochKnown(writer, m) == EpochKnown(p.w, m);
    }

    lemma Tiling()
      requires FlightOk()
      ensures WellFormedFlight(flight) && CursorOk(flight, Cursor(written, offset)) && CursorOk(flight, Cursor(0, 0))
      ensures !broken ==> SentAll(flight, Cursor(0, 0), delivered) == Some(Cursor(written, offset))
    {
    }

    lemma InFlight()
      requires FlightOk()
      ensures CursorOk(flight, Cursor(written, offset)) && written <= |flight|
    {
    }

    ghost predicate Valid()
      reads this`epoch, this`num, this`lastNum, this`writer
      reads this`flight, this`written, this`offset, this`delivered, this`broken, this`numbers, this`writeSeq, this`total
    {
      CountersLinked() && FlightOk() && Numbered(flight, numbers, writeSeq, total)
    }

    constructor (aead: W.Aead, noQuery: bool, mtu: nat)
      requires W.LengthsOk(aead)
      ensures Valid() && flight == [] && writer == W.Writer(0, 0, 0, [], false) && !broken
    {
      this.aead, this.noQuery, this.mtu := aead, noQuery, mtu;
      epoch, num, lastNum := 0, 0, 0;
      flight, written, offset, complete, writeSeq := [], 0, 0, false, 0;
      writer := W.Writer(0, 0, 0, [], false);
      total, numbers, delivered, broken := 0, [], [], false;
    }

    /** Writes the flight out, now or from where it was blocked. */
    method FlushFlight(bio: Transport) returns (ret: int, ghost ps: seq<Packet>)
      requires Valid()
      modifies this`num, this`lastNum, this`writer, this`offset, this`written, this`mtu, this`delivered, this`broken,
        this`complete, bio
      ensures Valid() && complete
      ensures bio.sent == old(bio.sent) + ps && (forall k :: 0 <= k < |ps| ==> PacketOk(ps[k], mtu))
      ensures mtu == KnownMtu(noQuery, old(mtu), bio.mtuAnswer)
      ensures delivered == old(delivered) + ItemsOf(ps)
      ensures ret == 1 ==> written == |flight| && broken == old(broken)
      ensures WellFormedFlight(flight) && CursorOk(flight, Cursor(0, 0)) && (!old(broken) ==> (broken <==> Torn()))
      ensures old(Safe(KnownMtu(noQuery, mtu, bio.mtuAnswer))) ==> broken == old(broken)
      ensures broken && !old(broken) ==> Unsealable(mtu)
      ensures Accepting(old(bio.answers), |ps|) && (ret == 1 ==> Accepting(old(bio.answers), |ps| + 1))
      ensures old(Safe(KnownMtu(noQuery, mtu, bio.mtuAnswer))) && Roomy(mtu) ==>
                |ps| <= old(StepsLeft()) && (ret == 1 <==> Accepting(old(bio.answers), |ps| + 1))
    {
      hide SentAll, FlightOk, CountersLinked, Roomy, StepsLeft;
      Tiling();
      complete := true;
      ret, ps := SendFlight(bio);
      Tiling();
    }

    /** Writes the flight again from its start: what it delivers is counted afresh. */
    method Retransmit(bio: Transport) returns (ret: int, ghost ps: seq<Packet>)
      requires Valid()
      modifies this`num, this`lastNum, this`writer, this`offset, this`written, this`mtu, this`delivered, this`broken, bio
      ensures Valid()
      ensures bio.sent == old(bio.sent) + ps && (forall k :: 0 <= k < |ps| ==> PacketOk(ps[k], mtu))
      ensures mtu == KnownMtu(noQuery, old(mtu), bio.mtuAnswer)
      ensures delivered == ItemsOf(ps)
      ensures ret == 1 ==> SentAll(flight, Cursor(0, 0), ItemsOf(ps)) == Some(Cursor(|flight|, 0))
      ensures WellFormedFlight(flight) && CursorOk(flight, Cursor(0, 0)) && (broken <==> Torn())
      ensures old(Sealable(writer, flight, Cursor(0, 0), KnownMtu(noQuery, mtu, bio.mtuAnswer))) ==> !broken
      ensures broken ==> Unsealable(mtu)
      ensures Accepting(old(bio.answers), |ps|) && (ret == 1 ==> Accepting(old(bio.answers), |ps| + 1))
      ensures old(Sealable(writer, flight, Cursor(0, 0), KnownMtu(noQuery, mtu, bio.mtuAnswer))) && Roomy(mtu) ==>
                |ps| <= Steps(flight, Cursor(0, 0)) && (ret == 1 <==> Accepting(old(bio.answers), |ps| + 1))
    {
      hide FlightOk, CountersLinked, Numbered, Unsealable, PacketOk, ItemsOf, Sealable, Roomy, Steps;
      FlightShape();
      written, offset, delivered, broken := 0, 0, [], false;
      Restarted();
      ret, ps := SendFlight(bio);
      assert [] + ItemsOf(ps) == ItemsOf(ps);
      Tiling();
      if !broken {
        Delivered();
      }
    }

    lemma FlightShape()
      requires FlightOk()
      ensures WellFormedFlight(flight) && Distinct(flight)
    {
    }

    lemma Restarted()
      requires WellFormedFlight(flight) && Distinct(flight) && written == 0 && offset == 0 && delivered == []
      ensures FlightOk()
    {
    }

    lemma Delivered()
      requires FlightOk() && !broken
      ensures WellFormedFlight(flight) && SentAll(flight, Cursor(0, 0), delivered) == Some(Cursor(written, offset))
      ensures written == |flight| ==> offset == 0
    {
    }

    /** A new epoch: the old counter stays for what was queued before. */
    method SetWriteState()
      requires Valid()
      modifies this`epoch, this`num, this`lastNum, this`writer
      ensures Valid() && writer == W.ChangeEpoch(old(writer))
    {
      W.ChangeGood(writer);
      epoch := (epoch + 1) % W.EPOCHS;
      lastNum := num;
      num := 0;
      writer := W.ChangeEpoch(writer);
    }

    method ClearOutgoing()
      modifies this`flight, this`written, this`offset, this`complete, this`numbers, this`delivered, this`broken
      ensures flight == [] && written == 0 && offset == 0 && !complete && numbers == [] && delivered == [] && !broken
    {
      flight, written, offset, complete := [], 0, 0, false;
      numbers, delivered, broken := [], [], false;
    }

    /** Queues an item; a flight that was written out is dropped first. */
    method AddOutgoing(isCcs: bool, data: seq<u8>) returns (ok: bool)
      requires Valid()
      requires !isCcs ==> Whole(Outgoing(false, data, epoch)).Some? && Whole(Outgoing(false, data, epoch)).value.num == writeSeq
      modifies this`flight, this`written, this`offset, this`complete, this`numbers, this`delivered, this`broken,
        this`writeSeq, this`total
      ensures Valid()
      ensures ok <==> (old(complete) || |old(flight)| < MAX_FLIGHT) && |data| <= 0xFFFF_FFFF
      ensures flight == (if old(complete) then [] else old(flight)) + (if ok then [Outgoing(isCcs, data, epoch)] else [])
      ensures writeSeq == if ok && !isCcs then (old(writeSeq) + 1) % U16 else old(writeSeq)
      ensures !old(complete) ==> delivered == old(delivered) && written == old(written) && offset == old(offset)
      ensures old(complete) ==> delivered == [] && written == 0 && offset == 0
    {
      hide SentAll, CursorOk, WellFormedFlight, Distinct, Whole, CountersLinked, Numbered;
      if complete {
        NumbersClear(flight, numbers, writeSeq, total);
        ClearOutgoing();
        Restarted();
      }
      if |flight| >= MAX_FLIGHT || |data| > 0xFFFF_FFFF {
        return false;
      }
      var m := Outgoing(isCcs, data, epoch);
      if !broken {
        FlightGrows(flight, m, delivered);
      }
      CursorKept(flight, m, Cursor(written, offset));
      NumbersGrow(flight, numbers, writeSeq, total, m);
      numbers := numbers + [total];
      if !isCcs {
        writeSeq := (writeSeq + 1) % U16;
        total := total + 1;
      }
      flight := flight + [m];
      NumbersApart(flight, numbers, writeSeq, total);
      ok := true;
    }

    /** Queues a handshake message, which takes the next number. */
    method AddMessage(typ: u8, body: seq<u8>) returns (ok: bool)
      requires Valid() && |body| < U24
      modifies this`flight, this`written, this`offset, this`complete, this`numbers, this`delivered, this`broken,
        this`writeSeq, this`total
      ensures Valid()
      ensures ok <==> old(complete) || |old(flight)| < MAX_FLIGHT
      ensures ok ==>
                && |flight| > 0 && !flight[|flight| - 1].isCcs
                && Whole(flight[|flight| - 1]) == Some(Fragment(typ, |body|, old(writeSeq), 0, body))
                && writeSeq == (old(writeSeq) + 1) % U16
    {
      hide Bytes, Parse;
      var f := Fragment(typ, |body|, writeSeq, 0, body);
      ParseOfBytes(f, []);
      assert Bytes(f) + [] == Bytes(f);
      ok := AddOutgoing(false, Bytes(f));
    }

    method AddChangeCipherSpec() returns (ok: bool)
      requires Valid()
      modifies this`flight, this`written, this`offset, this`complete, this`numbers, this`delivered, this`broken,
        this`writeSeq, this`total
      ensures Valid() && writeSeq == old(writeSeq)
      ensures ok <==> old(complete) || |old(flight)| < MAX_FLIGHT
      ensures ok ==> |flight| > 0 && flight[|flight| - 1].isCcs
    {
      ok := AddOutgoing(true, []);
    }
  }

  predicate Further(flight: seq<Outgoing>, c: Cursor, c': Cursor) {
    c'.written > c.written || (c'.written == c.written && c'.offset > c.offset)
  }

  lemma AtStart(flight: seq<Outgoing>)
    ensures CursorOk(flight, Cursor(0, 0))
  {
  }

  lemma StartAt(flight: seq<Outgoing>, c: Cursor)
    requires WellFormedFlight(flight) && CursorOk(flight, c)
    ensures SentAll(flight, c, []) == Some(c) && c.written <= |flight|
  {
  }

  lemma CursorStays(flight: seq<Outgoing>, c: Cursor)
    requires c.offset == 0 && c.written <= |flight|
    ensures CursorOk(flight, c)
  {
  }

  lemma PacketHasItems(p: Packet, mtu: nat)
    requires PacketOk(p, mtu)
    ensures p.items != []
  {
  }

  lemma CursorKept(flight: seq<Outgoing>, m: Outgoing, c: Cursor)
    requires WellFormedFlight(flight) && WellFormedItem(m) && CursorOk(flight, c)
    ensures CursorOk(flight + [m], c) && WellFormedFlight(flight + [m])
  {
    hide Whole;
  }

  lemma NumbersClear(flight: seq<Outgoing>, numbers: seq<nat>, writeSeq: nat, total: nat)
    requires Numbered(flight, numbers, writeSeq, total)
    ensures Numbered([], [], writeSeq, total)
  {
  }

  /** A message takes the next number; a ChangeCipherSpec takes none. */
  lemma NumbersGrow(flight: seq<Outgoing>, numbers: seq<nat>, writeSeq: nat, total: nat, m: Outgoing)
    requires Numbered(flight, numbers, writeSeq, total) && |flight| < MAX_FLIGHT
    requires !m.isCcs ==> Whole(m).Some? && Whole(m).value.num == writeSeq
    ensures if m.isCcs then Numbered(flight + [m], numbers + [total], writeSeq, total)
            else Numbered(flight + [m], numbers + [total], (writeSeq + 1) % U16, total + 1)
  {
    hide Whole;
  }

  /** Numbers less than seven apart stay apart modulo 2^16. */
  lemma NumbersApart(flight: seq<Outgoing>, numbers: seq<nat>, writeSeq: nat, total: nat)
    requires Numbered(flight, numbers, writeSeq, total)
    ensures Distinct(flight)
  {
    hide Whole;
    forall i, j | 0 <= i < j < |flight|
      ensures NumbersDiffer(flight[i], flight[j])
    {
      if !flight[i].isCcs && !flight[j].isCcs {
        ModApart(numbers[i], numbers[j]);
      }
    }
  }

  lemma ModApart(a: nat, b: nat)
    requires a < b < a + U16
    ensures a % U16 != b % U16
  {
  }

  lemma NoItems()
    ensures ItemsOf([]) == []
  {
  }

  lemma ItemsSnoc(ps: seq<Packet>, p: Packet)
    ensures ItemsOf(ps + [p]) == ItemsOf(ps) + p.items
  {
    assert (ps + [p])[..|ps + [p]| - 1] == ps;
  }

  /** Each packet leaves less of the flight: fewer items, or fewer bytes of the item at the cursor. */
  lemma LeftForward(flight: seq<Outgoing>, c: Cursor, c': Cursor)
    requires CursorOk(flight, c) && CursorOk(flight, c') && c.written < |flight| && Further(flight, c, c')
    ensures c'.written > c.written || (c'.written == c.written && Left(flight, c') < Left(flight, c))
  {
  }
}
