/**
 Sealing DTLS records: 48-bit sequence numbers counted separately for the current and the previous epoch,
 so that a flight from before an epoch change can still be retransmitted.
 */
module DtlsWriter {
  import opened Prelude

  const RECORD_HEADER := 13
  const SEQ_SPACE := 0x1_0000_0000_0000
  const EPOCHS := 0x1_0000

  /** A record that has been sealed, under its epoch and number. */
  datatype Record = Record(epoch: nat, num: nat, typ: u8, plain: seq<u8>)

  /** The lengths that the cipher of each epoch gives: nonce prefix, greatest overhead, sealed size. */
  datatype Aead = Aead(nonceLen: nat -> nat, maxOverhead: nat -> nat, size: (nat, nat) -> nat)

  ghost predicate LengthsOk(a: Aead) {
    && (forall e: nat :: a.nonceLen(e) <= a.maxOverhead(e))
    && (forall e: nat, n: nat :: a.size(e, n) <= n + a.maxOverhead(e))
  }

  /** The two counters, the records sealed so far, and whether a counter or the epoch has wrapped. */
  datatype Writer = Writer(epoch: nat, num: nat, lastNum: nat, log: seq<Record>, wrapped: bool)

  predicate CountersOk(w: Writer) {
    w.epoch < EPOCHS && w.num < SEQ_SPACE && w.lastNum < SEQ_SPACE
  }

  /** A seal was refused, failed after using up a number, or gave a record of some length. */
  datatype Sealing = Refused | Spent(r: Record) | Done(r: Record, len: nat)

  /** One call to seal a record into `room` bytes. */
  function Seal(a: Aead, w: Writer, previous: bool, typ: u8, plain: seq<u8>, room: nat): (Sealing, Writer)
    requires CountersOk(w) && (previous ==> w.epoch >= 1)
  {
    var epoch := if previous then w.epoch - 1 else w.epoch;
    var num := if previous then w.lastNum else w.num;
    var size := a.size(epoch, |plain|);
    if room < RECORD_HEADER || size > room - RECORD_HEADER then (Refused, w)
    else
      var r := Record(epoch, num, typ, plain);
      var next := (num + 1) % SEQ_SPACE;
      var w' := Writer(w.epoch, if previous then w.num else next, if previous then next else w.lastNum,
                       w.log + [r], w.wrapped || next == 0);
      (if next == 0 || size >= 0x1_0000 then Spent(r) else Done(r, RECORD_HEADER + size), w')
  }

  /** A new epoch counts from zero; the old counter is kept for the previous epoch. */
  function ChangeEpoch(w: Writer): Writer {
    var next := (w.epoch + 1) % EPOCHS;
    Writer(next, 0, w.num, w.log, w.wrapped || next == 0)
  }

  predicate SamePair(r: Record, s: Record) {
    r.epoch == s.epoch && r.num == s.num
  }

  predicate NoPairTwice(log: seq<Record>) {
    forall i, j :: 0 <= i < j < |log| ==> !SamePair(log[i], log[j])
  }

  /** Until a counter wraps, every sealed record is behind the counter of its epoch. */
  predicate Good(w: Writer) {
    && CountersOk(w)
    && (!w.wrapped ==>
          && NoPairTwice(w.log)
          && forall i :: 0 <= i < |w.log| ==> Behind(w, w.log[i]))
  }

  predicate Behind(w: Writer, r: Record) {
    && r.epoch <= w.epoch
    && (r.epoch == w.epoch ==> r.num < w.num)
    && (r.epoch == w.epoch - 1 ==> r.num < w.lastNum)
  }

  lemma SealGood(a: Aead, w: Writer, previous: bool, typ: u8, plain: seq<u8>, room: nat)
    requires Good(w) && (previous ==> w.epoch >= 1)
    ensures Good(Seal(a, w, previous, typ, plain, room).1)
  {
  }

  lemma ChangeGood(w: Writer)
    requires Good(w)
    ensures Good(ChangeEpoch(w))
  {
  }

  // ---------------------------------------------------------------- all runs

  /** Any code path may seal a record, in either epoch, whether or not the packet is later written. */
  datatype Event = SealRecord(previous: bool, typ: u8, plain: seq<u8>, room: nat) | SetWriteState

  /** Nothing seals for the previous epoch before there is one. */
  function Step(a: Aead, w: Writer, e: Event): (w': Writer)
    requires CountersOk(w)
    ensures CountersOk(w')
  {
    match e
    case SetWriteState => ChangeEpoch(w)
    case SealRecord(previous, typ, plain, room) =>
      if previous && w.epoch == 0 then w else Seal(a, w, previous, typ, plain, room).1
  }

  function Exec(a: Aead, w: Writer, events: seq<Event>): (w': Writer)
    requires CountersOk(w)
    ensures CountersOk(w')
    decreases |events|
  {
    if events == [] then w else Exec(a, Step(a, w, events[0]), events[1..])
  }

  lemma {:induction false} ExecGood(a: Aead, w: Writer, events: seq<Event>)
    requires Good(w)
    ensures Good(Exec(a, w, events))
    decreases |events|
  {
    hide Good, Seal, ChangeEpoch;
    GoodCounters(w);
    if events != [] {
      var e := events[0];
      if e.SetWriteState? {
        ChangeGood(w);
      } else if !(e.previous && w.epoch == 0) {
        SealGood(a, w, e.previous, e.typ, e.plain, e.room);
      }
      ExecGood(a, Step(a, w, e), events[1..]);
    }
  }

  lemma GoodCounters(w: Writer)
    requires Good(w)
    ensures CountersOk(w)
  {
  }

  function Count(log: seq<Record>, epoch: nat): nat {
    if log == [] then 0 else Count(log[..|log| - 1], epoch) + (if log[|log| - 1].epoch == epoch then 1 else 0)
  }

  /** The records of each epoch are numbered from zero on without a gap, and the counters go on from there. */
  predicate Consecutive(w: Writer) {
    && (forall i :: 0 <= i < |w.log| ==> w.log[i].epoch <= w.epoch && w.log[i].num == Count(w.log[..i], w.log[i].epoch))
    && w.num == Count(w.log, w.epoch)
    && (w.epoch >= 1 ==> w.lastNum == Count(w.log, w.epoch - 1))
  }

  lemma {:induction false} CountNone(log: seq<Record>, epoch: nat)
    requires forall i :: 0 <= i < |log| ==> log[i].epoch < epoch
    ensures Count(log, epoch) == 0
  {
    if log != [] {
      CountNone(log[..|log| - 1], epoch);
    }
  }

  lemma SealConsecutive(a: Aead, w: Writer, previous: bool, typ: u8, plain: seq<u8>, room: nat)
    requires CountersOk(w) && (previous ==> w.epoch >= 1) && (!w.wrapped ==> Consecutive(w))
    ensures var w' := Seal(a, w, previous, typ, plain, room).1; !w'.wrapped ==> Consecutive(w')
  {
    hide Count;
    var w' := Seal(a, w, previous, typ, plain, room).1;
    if w' != w && !w'.wrapped {
      var r := w'.log[|w.log|];
      assert w'.log == w.log + [r];
      assert forall i :: 0 <= i <= |w.log| ==> w'.log[..i] == w.log[..i];
      CountSnoc(w.log, r, w.epoch);
      if w.epoch >= 1 {
        CountSnoc(w.log, r, w.epoch - 1);
      }
    }
  }

  lemma CountSnoc(log: seq<Record>, r: Record, epoch: nat)
    ensures Count(log + [r], epoch) == Count(log, epoch) + (if r.epoch == epoch then 1 else 0)
  {
    assert (log + [r])[..|log|] == log;
  }

  lemma ChangeConsecutive(w: Writer)
    requires CountersOk(w) && (!w.wrapped ==> Consecutive(w))
    ensures !ChangeEpoch(w).wrapped ==> Consecutive(ChangeEpoch(w))
  {
    if !ChangeEpoch(w).wrapped {
      CountNone(w.log, w.epoch + 1);
    }
  }

  lemma {:induction false} ExecConsecutive(a: Aead, w: Writer, events: seq<Event>)
    requires CountersOk(w) && (!w.wrapped ==> Consecutive(w))
    ensures var w' := Exec(a, w, events); !w'.wrapped ==> Consecutive(w')
    decreases |events|
  {
    hide Consecutive, Seal, ChangeEpoch;
    if events != [] {
      var e := events[0];
      if e.SetWriteState? {
        ChangeConsecutive(w);
      } else if !(e.previous && w.epoch == 0) {
        SealConsecutive(a, w, e.previous, e.typ, e.plain, e.room);
      }
      ExecConsecutive(a, Step(a, w, e), events[1..]);
    }
  }

  /** Up to the first wrap the records of every epoch carry the numbers 0, 1, 2 and so on, in the order of sealing. */
  lemma NumberedInOrder(a: Aead, events: seq<Event>)
    ensures var w := Exec(a, Writer(0, 0, 0, [], false), events);
            !w.wrapped ==> forall i :: 0 <= i < |w.log| ==> w.log[i].num == Count(w.log[..i], w.log[i].epoch)
  {
    hide Exec;
    ExecConsecutive(a, Writer(0, 0, 0, [], false), events);
  }

  /** No pair of epoch and number is ever used for two records, up to the first wrap of a counter. */
  lemma PairsUnique(a: Aead, events: seq<Event>)
    ensures var w := Exec(a, Writer(0, 0, 0, [], false), events);
            !w.wrapped ==> NoPairTwice(w.log)
  {
    hide Exec;
    ExecGood(a, Writer(0, 0, 0, [], false), events);
  }
}
