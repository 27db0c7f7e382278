/**
 The replay window of DTLS records: a 64-bit word behind the highest number seen, standing for the set of
 numbers seen in the epoch.
 */
module DtlsReplay {
  import opened Prelude
  import opened Bits

  const WINDOW := 64
  const SEQ_SPACE := 0x1_0000_0000_0000
  const EPOCHS := 0x1_0000

  /** The set that the word stands for, with its maximum (zero at first). */
  datatype Window = Window(max: nat, seen: set<nat>)

  /** A number is turned away when it has been seen, or is 64 or more below the highest. */
  predicate Discards(w: Window, n: nat) {
    n <= w.max && (w.max - n >= WINDOW || n in w.seen)
  }

  function Recorded(w: Window, n: nat): Window {
    Window(if n > w.max then n else w.max, w.seen + {n})
  }

  class Bitmap {
    var word: nat
    var maxSeq: nat
    ghost var window: Window

    ghost predicate Valid()
      reads this
    {
      && maxSeq == window.max
      && word < Pow2(WINDOW)
      && (forall n :: n in window.seen ==> n <= window.max)
      && forall k: nat :: k < WINDOW ==> (Bit(word, k) <==> k <= window.max && window.max - k in window.seen)
    }

    constructor ()
      ensures Valid() && window == Window(0, {})
    {
      word, maxSeq, window := 0, 0, Window(0, {});
      new;
      forall k: nat | k < WINDOW
        ensures !Bit(0, k)
      {
        BitZero(k);
      }
    }

    method ShouldDiscard(n: nat) returns (discard: bool)
      requires Valid()
      ensures discard <==> Discards(window, n)
    {
      if n > maxSeq {
        return false;
      }
      var idx := maxSeq - n;
      return idx >= WINDOW || Bit(word, idx);
    }

    method Record(n: nat)
      requires Valid()
      modifies this
      ensures Valid() && window == Recorded(old(window), n)
    {
      hide Bit, Or, Pow2;
      ghost var before := window;
      if n > maxSeq {
        Shift(n - maxSeq);
        maxSeq := n;
        window := window.(max := n);
      }
      var idx := maxSeq - n;
      if idx < WINDOW {
        Pow2Monotone(idx, WINDOW);
        OrBound(word, Pow2(idx), WINDOW);
        forall k: nat | k < WINDOW
          ensures Bit(Or(word, Pow2(idx)), k) <==> Bit(word, k) || k == idx
        {
          BitOr(word, Pow2(idx), k);
          BitPow2(idx, k);
        }
        word := Or(word, Pow2(idx));
      }
      window := window.(seen := window.seen + {n});
    }

    /** Slides the word; what is shifted out is forgotten. */
    method Shift(shift: nat)
      requires word < Pow2(WINDOW) && shift > 0
      modifies this`word
      ensures word < Pow2(WINDOW)
      ensures forall k: nat :: k < WINDOW ==> (Bit(word, k) <==> k >= shift && Bit(old(word), k - shift))
    {
      hide Bit, Pow2;
      ghost var before := word;
      if shift >= WINDOW {
        word := 0;
        forall k: nat | k < WINDOW
          ensures !Bit(0, k)
        {
          BitZero(k);
        }
      } else {
        word := (word * Pow2(shift)) % Pow2(WINDOW);
        forall k: nat | k < WINDOW
          ensures Bit(word, k) <==> k >= shift && Bit(before, k - shift)
        {
          BitMod(before * Pow2(shift), WINDOW, k);
          BitShift(before, shift, k);
        }
      }
    }
  }

  // ---------------------------------------------------------------- opening records

  const RECORD_HEADER := 13
  const MAX_ENCRYPTED := 16704
  const MAX_PLAIN := 16384
  const VERSION_MAJOR := 0xfe

  /** What the reader knows of the peer's keys: `open` gives the plaintext of an authentic record. */
  datatype Cipher = Cipher(isNull: bool, version: nat, open: (u8, nat, nat, seq<u8>) -> Option<seq<u8>>)

  /** Nothing to read; a packet or record dropped; a fatal error; a record with its plaintext. */
  datatype Opened = Partial | Dropped(consumed: nat) | Overflow | Record(typ: u8, num: nat, plain: seq<u8>, consumed: nat)

  function Big(s: seq<u8>): nat {
    if s == [] then 0 else Big(s[..|s| - 1]) * 256 + s[|s| - 1]
  }

  /** A record header with its body: type, version, and epoch and sequence number as one 64-bit number. */
  datatype Raw = Raw(typ: u8, version: nat, num: nat, body: seq<u8>)

  function ParseRecord(s: seq<u8>): (r: Read<Raw>)
    ensures r.Got? ==> |r.rest| < |s| && |r.value.body| <= MAX_ENCRYPTED
  {
    if |s| < RECORD_HEADER then Fail
    else
      var len := Big(s[11..13]);
      if |s| - RECORD_HEADER < len || len > MAX_ENCRYPTED then Fail
      else Got(Raw(s[0], Big(s[1..3]), Big(s[3..11]), s[RECORD_HEADER..RECORD_HEADER + len]), s[RECORD_HEADER + len..])
  }

  // The layout of section 4.1 of RFC 6347, place by place.

  /** Type, version, epoch, record number and length in front of the body, most significant bytes first. */
  function Framed(typ: u8, version: nat, epoch: nat, num: nat, body: seq<u8>): (b: seq<u8>)
    ensures |b| == RECORD_HEADER + |body|
  {
    [typ, version / 256 % 256, version % 256, epoch / 256 % 256, epoch % 256,
     num / 0x100_0000_0000 % 256, num / 0x1_0000_0000 % 256, num / 0x100_0000 % 256, num / 0x1_0000 % 256,
     num / 256 % 256, num % 256, |body| / 256 % 256, |body| % 256] + body
  }

  lemma BigTwo(s: seq<u8>, i: nat)
    requires i + 2 <= |s|
    ensures Big(s[i..i + 2]) == s[i] as nat * 256 + s[i + 1] as nat
  {
    BigSnoc(s, i, 0);
    BigSnoc(s, i, 1);
  }

  lemma BigEight(s: seq<u8>, i: nat)
    requires i + 8 <= |s|
    ensures Big(s[i..i + 8])
         == (s[i] as nat * 256 + s[i + 1] as nat) * SEQ_SPACE + s[i + 2] as nat * 0x100_0000_0000
            + s[i + 3] as nat * 0x1_0000_0000 + s[i + 4] as nat * 0x100_0000 + s[i + 5] as nat * 0x1_0000 + s[i + 6] as nat * 256 + s[i + 7] as nat
  {
    BigTwo(s, i);
    BigSnoc(s, i, 2);
    BigSnoc(s, i, 3);
    BigSnoc(s, i, 4);
    BigSnoc(s, i, 5);
    BigSnoc(s, i, 6);
    BigSnoc(s, i, 7);
  }

  lemma BigSnoc(s: seq<u8>, i: nat, n: nat)
    requires i + n < |s|
    ensures Big(s[i..i + n + 1]) == Big(s[i..i + n]) * 256 + s[i + n] as nat
  {
    assert s[i..i + n + 1][..n] == s[i..i + n];
  }

  lemma VersionBack(s: seq<u8>, typ: u8, version: nat, epoch: nat, num: nat, body: seq<u8>, rest: seq<u8>)
    requires version < 0x1_0000 && s == Framed(typ, version, epoch, num, body) + rest
    ensures Big(s[1..3]) == version
  {
    hide Big;
    BigTwo(s, 1);
    assert s[1] == version / 256 % 256 && s[2] == version % 256;
  }

  lemma LengthBack(s: seq<u8>, typ: u8, version: nat, epoch: nat, num: nat, body: seq<u8>, rest: seq<u8>)
    requires |body| < 0x1_0000 && s == Framed(typ, version, epoch, num, body) + rest
    ensures Big(s[11..13]) == |body|
  {
    hide Big;
    BigTwo(s, 11);
    assert s[11] == |body| / 256 % 256 && s[12] == |body| % 256;
  }

  lemma NumberBack(s: seq<u8>, typ: u8, version: nat, epoch: nat, num: nat, body: seq<u8>, rest: seq<u8>)
    requires epoch < EPOCHS && num < SEQ_SPACE && s == Framed(typ, version, epoch, num, body) + rest
    ensures Big(s[3..11]) == epoch * SEQ_SPACE + num
  {
    hide Big;
    BigEight(s, 3);
    Digits(num);
    assert s[3] == epoch / 256 % 256 && s[4] == epoch % 256;
    assert s[5] == num / 0x100_0000_0000 % 256 && s[6] == num / 0x1_0000_0000 % 256 && s[7] == num / 0x100_0000 % 256;
    assert s[8] == num / 0x1_0000 % 256 && s[9] == num / 256 % 256 && s[10] == num % 256;
  }

  /** A framed record is read back, whatever follows. */
  lemma ParseOfFramed(typ: u8, version: nat, epoch: nat, num: nat, body: seq<u8>, rest: seq<u8>)
    requires version < 0x1_0000 && epoch < EPOCHS && num < SEQ_SPACE && |body| <= MAX_ENCRYPTED
    ensures ParseRecord(Framed(typ, version, epoch, num, body) + rest)
         == Got(Raw(typ, version, epoch * SEQ_SPACE + num, body), rest)
  {
    hide Big;
    var s := Framed(typ, version, epoch, num, body) + rest;
    VersionBack(s, typ, version, epoch, num, body, rest);
    NumberBack(s, typ, version, epoch, num, body, rest);
    LengthBack(s, typ, version, epoch, num, body, rest);
    assert s[0] == typ && s[RECORD_HEADER..RECORD_HEADER + |body|] == body && s[RECORD_HEADER + |body|..] == rest;
  }

  lemma Digits(num: nat)
    requires num < SEQ_SPACE
    ensures num == num / 0x100_0000_0000 % 256 * 0x100_0000_0000 + num / 0x1_0000_0000 % 256 * 0x1_0000_0000
                 + num / 0x100_0000 % 256 * 0x100_0000 + num / 0x1_0000 % 256 * 0x1_0000 + num / 256 % 256 * 256 + num % 256
  {
    Digit(num, 1);
    Digit(num, 256);
    Digit(num, 0x1_0000);
    Digit(num, 0x100_0000);
    Digit(num, 0x1_0000_0000);
  }

  lemma Digit(n: nat, p: nat)
    requires p > 0
    ensures n / p == n / (256 * p) * 256 + n / p % 256
  {
    DivDiv(n, p, 256);
  }

  /** Input is no record exactly when it is too short for its header, or for its length, or the length is too large. */
  lemma ParsesIff(s: seq<u8>)
    ensures ParseRecord(s).Fail? <==>
              |s| < 13 || s[11] as nat * 256 + s[12] as nat > 16704 || |s| < 13 + s[11] as nat * 256 + s[12] as nat
  {
    hide Big;
    if |s| >= RECORD_HEADER {
      BigTwo(s, 11);
    }
  }

  /** Whatever is read is a framed record and what follows it. */
  lemma FramedOfParse(s: seq<u8>) returns (typ: u8, version: nat, epoch: nat, num: nat, body: seq<u8>)
    requires ParseRecord(s).Got?
    ensures version < 0x1_0000 && epoch < EPOCHS && num < SEQ_SPACE && |body| <= MAX_ENCRYPTED
    ensures s == Framed(typ, version, epoch, num, body) + ParseRecord(s).rest
  {
    hide Big;
    BigTwo(s, 11);
    var len := s[11] as nat * 256 + s[12] as nat;
    typ, version, epoch := s[0], s[1] as nat * 256 + s[2] as nat, s[3] as nat * 256 + s[4] as nat;
    num := s[5] as nat * 0x100_0000_0000 + s[6] as nat * 0x1_0000_0000 + s[7] as nat * 0x100_0000
      + s[8] as nat * 0x1_0000 + s[9] as nat * 256 + s[10] as nat;
    body := s[RECORD_HEADER..RECORD_HEADER + len];
    HeaderAgain(s, typ, version, epoch, num, body);
    assert s == s[..RECORD_HEADER] + body + s[RECORD_HEADER + len..];
  }

  lemma HeaderAgain(s: seq<u8>, typ: u8, version: nat, epoch: nat, num: nat, body: seq<u8>)
    requires |s| >= RECORD_HEADER && typ == s[0] && |body| == s[11] as nat * 256 + s[12] as nat
    requires version == s[1] as nat * 256 + s[2] as nat && epoch == s[3] as nat * 256 + s[4] as nat
    requires num == s[5] as nat * 0x100_0000_0000 + s[6] as nat * 0x1_0000_0000 + s[7] as nat * 0x100_0000
                  + s[8] as nat * 0x1_0000 + s[9] as nat * 256 + s[10] as nat
    ensures Framed(typ, version, epoch, num, body) == s[..RECORD_HEADER] + body && num < SEQ_SPACE
  {
    SixDigits(s[5], s[6], s[7], s[8], s[9], s[10]);
    TwoDigits(s[1], s[2]);
    TwoDigits(s[3], s[4]);
    TwoDigits(s[11], s[12]);
    assert s[..RECORD_HEADER] == [s[0], s[1], s[2], s[3], s[4], s[5], s[6], s[7], s[8], s[9], s[10], s[11], s[12]];
  }

  lemma TwoDigits(a: u8, b: u8)
    ensures var v := a as nat * 256 + b as nat; v / 256 % 256 == a && v % 256 == b && v < 0x1_0000
  {
  }

  lemma SixDigits(a: u8, b: u8, c: u8, d: u8, e: u8, f: u8)
    ensures var num := a as nat * 0x100_0000_0000 + b as nat * 0x1_0000_0000 + c as nat * 0x100_0000 + d as nat * 0x1_0000
                       + e as nat * 256 + f as nat;
            && num / 0x100_0000_0000 % 256 == a && num / 0x1_0000_0000 % 256 == b && num / 0x100_0000 % 256 == c
            && num / 0x1_0000 % 256 == d && num / 256 % 256 == e && num % 256 == f && num < SEQ_SPACE
  {
    var n5 := a as nat;
    var n4 := n5 * 256 + b as nat;
    var n3 := n4 * 256 + c as nat;
    var n2 := n3 * 256 + d as nat;
    var n1 := n2 * 256 + e as nat;
    var n0 := n1 * 256 + f as nat;
    DivDiv(n0, 1, 256);
    DivDiv(n0, 256, 256);
    DivDiv(n0, 0x1_0000, 256);
    DivDiv(n0, 0x100_0000, 256);
    DivDiv(n0, 0x1_0000_0000, 256);
    assert n0 / 256 == n1 && n1 / 256 == n2 && n2 / 256 == n3 && n3 / 256 == n4 && n4 / 256 == n5;
  }

  predicate VersionOk(c: Cipher, version: nat) {
    if c.isNull then version / 256 == VERSION_MAJOR else version == c.version
  }

  /** The record layer accepts a record: right epoch, not turned away by the window, and authentic. */
  predicate Accepts(c: Cipher, epoch: nat, w: Window, raw: Raw) {
    raw.num / SEQ_SPACE == epoch && !Discards(w, raw.num) && c.open(raw.typ, raw.version, raw.num, raw.body).Some?
  }

  function Open(c: Cipher, epoch: nat, w: Window, input: seq<u8>): (Opened, Window) {
    if input == [] then (Partial, w)
    else match ParseRecord(input)
      case Fail => (Dropped(|input|), w)
      case Got(raw, rest) =>
        if !VersionOk(c, raw.version) then (Dropped(|input|), w)
        else if !Accepts(c, epoch, w, raw) then (Dropped(|input| - |rest|), w)
        else
          var plain := c.open(raw.typ, raw.version, raw.num, raw.body).value;
          if |plain| > MAX_PLAIN then (Overflow, w)
          else (Record(raw.typ, raw.num, plain, |input| - |rest|), Recorded(w, raw.num))
  }

  class RecordReader {
    var epoch: nat
    var bitmap: Bitmap

    ghost predicate Valid()
      reads this, bitmap
    {
      bitmap.Valid() && epoch < EPOCHS
    }

    constructor ()
      ensures Valid() && fresh(bitmap) && epoch == 0 && bitmap.window == Window(0, {})
    {
      epoch := 0;
      bitmap := new Bitmap();
    }

    method OpenRecord(c: Cipher, input: seq<u8>) returns (r: Opened)
      requires Valid()
      modifies bitmap
      ensures Valid()
      ensures (r, bitmap.window) == Open(c, epoch, old(bitmap.window), input)
    {
      hide ParseRecord, Discards;
      if input == [] {
        return Partial;
      }
      var parsed := ParseRecord(input);
      if parsed.Fail? {
        return Dropped(|input|);
      }
      var raw := parsed.value;
      if !VersionOk(c, raw.version) {
        return Dropped(|input|);
      }
      var consumed := |input| - |parsed.rest|;
      if raw.num / SEQ_SPACE != epoch {
        return Dropped(consumed);
      }
      var discard := bitmap.ShouldDiscard(raw.num);
      if discard {
        return Dropped(consumed);
      }
      var plain := c.open(raw.typ, raw.version, raw.num, raw.body);
      if plain.None? {
        return Dropped(consumed);
      }
      if |plain.value| > MAX_PLAIN {
        return Overflow;
      }
      bitmap.Record(raw.num);
      return Record(raw.typ, raw.num, plain.value, consumed);
    }

    /** The next epoch starts with an empty window. The epoch has 16 bits. */
    method SetReadState()
      requires Valid()
      modifies this
      ensures Valid() && fresh(bitmap)
      ensures epoch == (old(epoch) + 1) % EPOCHS && bitmap.window == Window(0, {})
    {
      epoch := (epoch + 1) % EPOCHS;
      bitmap := new Bitmap();
    }
  }

  // ---------------------------------------------------------------- all runs

  /** Anything may arrive at any time, and the read state may change. */
  datatype Event = Packet(c: Cipher, input: seq<u8>) | NextEpoch

  /** The reader, the numbers of all records accepted so far, and how often the epoch has changed. */
  datatype Run = Run(epoch: nat, window: Window, accepted: seq<nat>, changes: nat)

  function Step(r: Run, e: Event): Run {
    match e
    case NextEpoch => Run((r.epoch + 1) % EPOCHS, Window(0, {}), r.accepted, r.changes + 1)
    case Packet(c, input) =>
      var (o, w) := Open(c, r.epoch, r.window, input);
      Run(r.epoch, w, if o.Record? then r.accepted + [o.num] else r.accepted, r.changes)
  }

  function Exec(r: Run, events: seq<Event>): Run
    decreases |events|
  {
    if events == [] then r else Exec(Step(r, events[0]), events[1..])
  }

  function Start(): Run {
    Run(0, Window(0, {}), [], 0)
  }

  /** The window holds the accepted numbers of this epoch, and the highest of them. */
  ghost predicate Good(r: Run) {
    && r.epoch == r.changes < EPOCHS
    && (forall n: nat :: n in r.window.seen <==> n in r.accepted && n / SEQ_SPACE == r.epoch)
    && (forall n :: n in r.accepted ==> n / SEQ_SPACE <= r.epoch)
    && (forall i, j :: 0 <= i < j < |r.accepted| ==> r.accepted[i] != r.accepted[j])
    && (forall n :: n in r.window.seen ==> n <= r.window.max)
    && (r.window.max in r.window.seen || (r.window.max == 0 && r.window.seen == {}))
  }

  lemma StepGood(r: Run, e: Event)
    requires Good(r) && (e.NextEpoch? ==> r.changes + 1 < EPOCHS)
    ensures Good(Step(r, e))
  {
    hide ParseRecord, VersionOk;
    var r' := Step(r, e);
    if e.Packet? && r'.accepted != r.accepted {
      var n := r'.accepted[|r.accepted|];
      assert r'.accepted == r.accepted + [n];
      assert n !in r.accepted;
      assert forall m: nat :: m in r'.accepted <==> m in r.accepted || m == n;
    }
  }

  lemma {:induction false} ChangesGrow(r: Run, events: seq<Event>)
    ensures r.changes <= Exec(r, events).changes
    decreases |events|
  {
    hide Open;
    if events != [] {
      ChangesGrow(Step(r, events[0]), events[1..]);
    }
  }

  lemma {:induction false} ExecGood(r: Run, events: seq<Event>)
    requires Good(r) && Exec(r, events).changes < EPOCHS
    ensures Good(Exec(r, events))
    decreases |events|
  {
    hide Good, Open;
    if events != [] {
      ChangesGrow(Step(r, events[0]), events[1..]);
      StepGood(r, events[0]);
      ExecGood(Step(r, events[0]), events[1..]);
    }
  }

  /** No record is accepted twice, whatever arrives in whatever order, while the epoch has not wrapped. */
  lemma NeverTwice(events: seq<Event>)
    requires Exec(Start(), events).changes < EPOCHS
    ensures var a := Exec(Start(), events).accepted;
            forall i, j :: 0 <= i < j < |a| ==> a[i] != a[j]
  {
    ExecGood(Start(), events);
  }

  /** Of the epoch, new, and less than 64 below every record of the epoch accepted so far. The window is nowhere in this. */
  predicate New(r: Run, num: nat) {
    && num / SEQ_SPACE == r.epoch
    && num !in r.accepted
    && forall n :: n in r.accepted && n / SEQ_SPACE == r.epoch ==> n < num + 64
  }

  /**
   After any run, a packet that starts with a framed record: which records are accepted, and what becomes of the
   others. Before there are keys only the major version matters, and then the version must be the negotiated one.
   */
  lemma AcceptedWhenNew(events: seq<Event>, c: Cipher, typ: u8, version: nat, epoch: nat, num: nat, body: seq<u8>, rest: seq<u8>)
    requires Exec(Start(), events).changes < EPOCHS
    requires version < 0x1_0000 && epoch < EPOCHS && num < SEQ_SPACE && |body| <= MAX_ENCRYPTED
    ensures var r, all := Exec(Start(), events), epoch * SEQ_SPACE + num;
            var framed, plain := Framed(typ, version, epoch, num, body), c.open(typ, version, all, body);
            var got := Open(c, r.epoch, r.window, framed + rest).0;
            got ==
            if (c.isNull && version / 256 != 0xfe) || (!c.isNull && version != c.version) then Dropped(|framed + rest|)
            else if epoch != r.epoch || !New(r, all) || plain.None? then Dropped(|framed|)
            else if |plain.value| > 16384 then Overflow
            else Opened.Record(typ, all, plain.value, |framed|)
  {
    hide Exec, Accepts, ParseRecord, New, Framed;
    ExecGood(Start(), events);
    var r, all := Exec(Start(), events), epoch * SEQ_SPACE + num;
    ParseOfFramed(typ, version, epoch, num, body, rest);
    assert (epoch * SEQ_SPACE + num) / SEQ_SPACE == epoch;
    NewEpoch(r, all);
    AcceptsIff(r, c, Raw(typ, version, all, body));
  }

  lemma NewEpoch(r: Run, num: nat)
    ensures New(r, num) ==> num / SEQ_SPACE == r.epoch
  {
  }

  /** A packet that does not start with a framed record gives none, and is dropped whole. */
  lemma UnframedDropped(c: Cipher, epoch: nat, w: Window, s: seq<u8>)
    requires forall typ: u8, version: nat, epoch: nat, num: nat, body: seq<u8>, rest: seq<u8> ::
               version < 0x1_0000 && epoch < EPOCHS && num < SEQ_SPACE && |body| <= MAX_ENCRYPTED ==>
                 s != Framed(typ, version, epoch, num, body) + rest
    ensures Open(c, epoch, w, s) == (if s == [] then Partial else Dropped(|s|), w)
  {
    hide ParseRecord, Framed;
    if ParseRecord(s).Got? {
      var typ, version, e, num, body := FramedOfParse(s);
      assert false;
    }
  }

  lemma AcceptsIff(r: Run, c: Cipher, raw: Raw)
    requires Good(r)
    ensures Accepts(c, r.epoch, r.window, raw) <==> c.open(raw.typ, raw.version, raw.num, raw.body).Some? && New(r, raw.num)
  {
  }
}
