/**
 Writing TLS records over a transport that may block: application data through a one-record write buffer,
 handshake data through a pending flight. What the transport has been given is a prefix of what has been
 sealed, in sealing order, for as long as the write buffer has never been given a block that its 16-bit offset
 cannot span.
 */
module TlsWriter {
  import opened Prelude
  import opened TlsBuffer

  const APPLICATION_DATA: u8 := 23
  const HANDSHAKE: u8 := 22
  const MAX_PLAIN := 16384
  const INT_MAX := 0x7FFF_FFFF

  /** A record as it was sealed. */
  datatype Sealed = Sealed(typ: u8, plain: seq<u8>, bytes: seq<u8>)

  /** The sealed records end to end. */
  function Stream(log: seq<Sealed>): seq<u8> {
    if log == [] then [] else Stream(log[..|log| - 1]) + log[|log| - 1].bytes
  }

  /** The application data in the sealed records, end to end. */
  function AppData(log: seq<Sealed>): seq<u8> {
    if log == [] then []
    else
      var last := log[|log| - 1];
      AppData(log[..|log| - 1]) + (if last.typ == 23 then last.plain else [])
  }

  lemma StreamSnoc(log: seq<Sealed>, r: Sealed)
    ensures Stream(log + [r]) == Stream(log) + r.bytes
    ensures AppData(log + [r]) == AppData(log) + (if r.typ == 23 then r.plain else [])
  {
    assert (log + [r])[..|log + [r]| - 1] == log;
  }

  /** Sealing the n-th record may fail, and adds at most the overhead; `prefix` bytes come before what is encrypted in place. */
  datatype Cipher = Cipher(prefix: nat, overhead: nat, seal: (nat, u8, seq<u8>) -> Option<seq<u8>>)

  ghost predicate CipherOk(c: Cipher) {
    c.overhead <= 0x4000 && forall n: nat, typ: u8, plain: seq<u8> :: c.seal(n, typ, plain).Some? ==>
      0 < |c.seal(n, typ, plain).value| <= |plain| + c.overhead
  }

  /** No record of an allowed length is refused by the cipher. */
  ghost predicate Seals(c: Cipher) {
    forall n: nat, typ: u8, plain: seq<u8> :: |plain| <= MAX_PLAIN ==> c.seal(n, typ, plain).Some?
  }

  class Writer {
    const cipher: Cipher
    const maxSendFragment: nat
    const partialWrite: bool
    const acceptMovingBuffer: bool
    const bio: Transport
    const buffer: SSLBuffer
    var shutdown: bool
    var flight: Option<seq<u8>>
    var flightOffset: nat
    var wnum: nat
    var pending: bool
    var pendTot: nat
    var pendAddr: nat
    var pendType: u8
    var pendRet: nat
    var writeSeq: nat
    ghost var log: seq<Sealed>
    ghost var intact: bool

    function FlightRest(): seq<u8>
      reads this`flight, this`flightOffset
    {
      if flight.Some? && flightOffset <= |flight.value| then flight.value[flightOffset..] else []
    }

    /**
     What has been written, what is buffered, and what is left of the flight make up all that was sealed, as
     long as every block of the write buffer was straight.
     */
    ghost predicate Valid()
      reads this`flight, this`flightOffset, this`pending, this`pendTot, this`pendRet, this`writeSeq, this`log, this`intact
      reads bio, buffer, buffer.buf
    {
      && buffer.Valid() && CipherOk(cipher) && writeSeq == |log|
      && 0 < maxSendFragment <= MAX_PLAIN
      && (flight.Some? ==> flightOffset <= |flight.value|) && (flight.None? ==> flightOffset == 0)
      && (pending ==> pendTot == pendRet > 0)
      && (intact ==> buffer.Straight() && Stream(log) == bio.sent + buffer.contents + FlightRest())
    }

    constructor (cipher: Cipher, maxSendFragment: nat, partialWrite: bool, acceptMovingBuffer: bool, answers: seq<int>)
      requires CipherOk(cipher) && 0 < maxSendFragment <= MAX_PLAIN
      ensures Valid() && log == [] && intact && !pending && wnum == 0 && fresh(bio) && fresh(buffer)
    {
      this.cipher, this.maxSendFragment := cipher, maxSendFragment;
      this.partialWrite, this.acceptMovingBuffer := partialWrite, acceptMovingBuffer;
      bio := new Transport(answers);
      buffer := new SSLBuffer();
      shutdown, flight, flightOffset, wnum := false, None, 0, 0;
      pending, pendTot, pendAddr, pendType, pendRet := false, 0, 0, 0, 0;
      writeSeq, log, intact := 0, [], true;
    }

    /** Seals a record behind the flight. It is never called while the flight is being written out. */
    method AddRecordToFlight(typ: u8, plain: seq<u8>) returns (ok: bool)
      requires Valid() && flightOffset == 0
      modifies this`flight, this`writeSeq, this`log
      ensures Valid() && flightOffset == 0
      ensures ok <==> cipher.seal(|old(log)|, typ, plain).Some?
      ensures log == if ok then old(log) + [Sealed(typ, plain, cipher.seal(|old(log)|, typ, plain).value)] else old(log)
    {
      hide Stream, AppData, CipherOk;
      if flight.None? {
        flight := Some([]);
      }
      ok := false;
      var sealed := cipher.seal(writeSeq, typ, plain);
      if sealed.Some? {
        StreamSnoc(log, Sealed(typ, plain, sealed.value));
        Regroup(bio.sent, buffer.contents, flight.value, sealed.value);
        flight := Some(flight.value + sealed.value);
        log := log + [Sealed(typ, plain, sealed.value)];
        writeSeq := writeSeq + 1;
        ok := true;
      }
    }

    /** Cuts a handshake message into records of the flight. */
    method AddMessage(msg: seq<u8>) returns (ok: bool, ghost added: seq<Sealed>)
      requires Valid() && flightOffset == 0
      modifies this`flight, this`writeSeq, this`log
      ensures Valid() && flightOffset == 0
      ensures log == old(log) + added && AppData(log) == AppData(old(log))
      ensures ok ==> Plaintext(added) == msg
      ensures forall k :: 0 <= k < |added| ==> added[k].typ == 22 && |added[k].plain| <= maxSendFragment
    {
      hide Stream, AppData, Plaintext, CipherOk, FlightRest;
      var rest := msg;
      added := [];
      NoPlaintext();
      var first := true;
      while first || rest != []
        invariant Valid() && flightOffset == 0 && log == old(log) + added && AppData(log) == AppData(old(log))
        invariant Plaintext(added) + rest == msg
        invariant forall k :: 0 <= k < |added| ==> added[k].typ == HANDSHAKE && |added[k].plain| <= maxSendFragment
        decreases first, |rest|
      {
        first := false;
        var n := if |rest| < maxSendFragment then |rest| else maxSendFragment;
        ok := AddHandshakeRecord(rest[..n]);
        if !ok {
          return;
        }
        ghost var r := log[|log| - 1];
        PlaintextSnoc(added, r);
        SplitAt(Plaintext(added), rest, n);
        added := added + [r];
        rest := rest[n..];
      }
      ok := true;
    }

    method AddHandshakeRecord(chunk: seq<u8>) returns (ok: bool)
      requires Valid() && flightOffset == 0
      modifies this`flight, this`writeSeq, this`log
      ensures Valid() && flightOffset == 0
      ensures !ok ==> log == old(log)
      ensures ok ==> |log| == |old(log)| + 1 && log[..|old(log)|] == old(log)
      ensures ok ==> log[|log| - 1].typ == HANDSHAKE && log[|log| - 1].plain == chunk
      ensures ok ==> log == old(log) + [log[|log| - 1]]
      ensures AppData(log) == AppData(old(log))
    {
      hide Stream, AppData, CipherOk, Valid;
      ghost var log0 := log;
      ok := AddRecordToFlight(HANDSHAKE, chunk);
      if ok {
        StreamSnoc(log0, log[|log0|]);
      }
    }

    // -------------------------------------------------------------- application data

    /** What is on its way: the bytes in the buffer and those of the flight. */
    ghost function Unsent(): nat
      reads this`flight, this`flightOffset, buffer
    {
      |buffer.contents| + |FlightRest()|
    }

    /** The arguments are those of the write that is pending, as far as they have to be. */
    predicate Matches(typ: u8, addr: nat, len: nat)
      reads this`pendTot, this`pendAddr, this`pendType
    {
      pendTot <= len && (acceptMovingBuffer || pendAddr == addr) && pendType == typ
    }

    /** Writes the buffered record; when it is gone, the write call that sealed it has its result. */
    method WritePending(typ: u8, addr: nat, len: nat) returns (ret: int)
      requires Valid() && pending
      modifies this`pending, bio, buffer
      ensures Valid() && old(bio.sent) <= bio.sent && (buffer.buf == old(buffer.buf) || buffer.buf == null)
      ensures ret > 0 ==> !pending && ret == pendRet && pendTot <= len && pendType == typ && buffer.contents == []
      ensures ret <= 0 ==> pending
      ensures !Matches(typ, addr, len) ==> ret <= 0 && bio.answers == old(bio.answers) && buffer.contents == old(buffer.contents)
      ensures Matches(typ, addr, len) ==>
                (ret > 0 <==> buffer.contents == []) && |buffer.contents| <= |old(buffer.contents)|
                && Pushed(old(bio.answers), bio.answers, |old(buffer.contents)| - |buffer.contents|, ret > 0)
    {
      hide Stream, CipherOk, Pushed;
      if pendTot > len || (!acceptMovingBuffer && pendAddr != addr) || pendType != typ {
        return -1;
      }
      ret := buffer.Flush(bio);
      if ret <= 0 {
        return;
      }
      pending := false;
      return pendRet;
    }

    /** The capacity that a record of that length asks for, with `rest` bytes of the flight before it. */
    function Wanted(rest: nat, len: nat): nat {
      rest + len + cipher.overhead
    }

    /** A block put at that address for such a record is straight, or is refused as too large. */
    predicate RoomOk(rest: nat, len: nat, address: nat) {
      Align(rest + cipher.prefix, address) + Wanted(rest, len) <= U16 || Wanted(rest, len) >= U16
    }

    /** Where the block is put matters for six sizes only, the largest that are not refused. */
    lemma RoomIff(rest: nat, len: nat)
      ensures (forall address: nat :: RoomOk(rest, len, address)) <==>
              Wanted(rest, len) <= U16 - ALIGN + 1 || Wanted(rest, len) >= U16
    {
      var worst := 2 * ALIGN - (rest + cipher.prefix + 7) % ALIGN;
      assert Align(rest + cipher.prefix, worst) == 7;
      assert RoomOk(rest, len, worst) <==> Wanted(rest, len) <= U16 - 7 || Wanted(rest, len) >= U16;
    }

    /** Asks for room in the empty buffer for what is left of the flight and a record behind it. */
    method Reserve(len: nat, address: nat) returns (ok: bool)
      requires Valid() && buffer.size == 0 && 0 < len
      modifies this`intact, buffer
      ensures Valid() && (buffer.buf == old(buffer.buf) || fresh(buffer.buf)) && buffer.size == 0 && buffer.contents == []
      ensures intact <==> old(intact) && (RoomOk(|FlightRest()|, len, address) || old(buffer.cap) >= Wanted(|FlightRest()|, len))
      ensures ok <==> Wanted(|FlightRest()|, len) < U16
      ensures ok ==> buffer.cap >= Wanted(|FlightRest()|, len) && buffer.buf != null
    {
      hide Stream, CipherOk, Align;
      ghost var rest := FlightRest();
      assert buffer.contents == [];
      assert intact ==> Stream(log) == bio.sent + rest;
      ok := buffer.EnsureCap(|FlightRest()| + cipher.prefix, Wanted(|FlightRest()|, len), address);
      intact := intact && buffer.Straight();
      assert bio.sent + [] + rest == bio.sent + rest;
    }

    /** Moves what is left of the flight into the empty buffer. */
    method TakeFlight()
      requires Valid() && buffer.contents == [] && buffer.size == 0 && buffer.cap >= |FlightRest()| && buffer.buf != null
      modifies this`flight, this`flightOffset, buffer, buffer.buf
      ensures Valid() && FlightRest() == [] && buffer.contents == old(FlightRest())
      ensures buffer.buf == old(buffer.buf) && buffer.cap == old(buffer.cap)
    {
      hide Stream, CipherOk;
      ghost var rest := FlightRest();
      assert intact ==> Stream(log) == bio.sent + [] + rest;
      assert bio.sent + [] + rest == bio.sent + rest + [];
      if flight.Some? {
        buffer.Append(flight.value[flightOffset..]);
        flight, flightOffset := None, 0;
      }
      assert buffer.contents == [] + rest == rest;
    }

    /** Moves what is left of the flight to the front of the empty buffer, with room for a record behind it. */
    method MoveFlight(len: nat, address: nat) returns (ok: bool)
      requires Valid() && buffer.size == 0 && 0 < len
      modifies this`flight, this`flightOffset, this`intact, buffer, buffer.buf
      ensures Valid() && (buffer.buf == old(buffer.buf) || fresh(buffer.buf))
      ensures FlightRest() == old(FlightRest()) || FlightRest() == []
      ensures intact <==> old(intact) && (RoomOk(old(|FlightRest()|), len, address) ||
                                         old(buffer.cap) >= Wanted(old(|FlightRest()|), len))
      ensures ok <==> Wanted(old(|FlightRest()|), len) < U16
      ensures ok ==> FlightRest() == [] && buffer.cap - buffer.size >= len + cipher.overhead && buffer.buf != null
      ensures ok ==> buffer.contents == old(FlightRest())
      ensures !ok ==> buffer.contents == []
    {
      hide Stream, CipherOk, Align, RoomOk, FlightRest;
      ok := Reserve(len, address);
      if ok {
        TakeFlight();
      }
    }

    /** Seals a record behind the contents of the buffer. */
    method SealToBuffer(typ: u8, plain: seq<u8>) returns (ok: bool)
      requires Valid() && FlightRest() == [] && buffer.cap - buffer.size >= |plain| + cipher.overhead
      modifies this`writeSeq, this`log, buffer, buffer.buf
      ensures Valid() && FlightRest() == [] && buffer.buf == old(buffer.buf)
      ensures ok ==> |log| == |old(log)| + 1 && log[|old(log)|].typ == typ && log[|old(log)|].plain == plain
      ensures ok ==> log == old(log) + [log[|old(log)|]]
      ensures !ok ==> log == old(log)
      ensures ok <==> cipher.seal(old(writeSeq), typ, plain).Some?
      ensures ok ==> 0 < |buffer.contents| <= |old(buffer.contents)| + |plain| + cipher.overhead
    {
      hide Stream, AppData, CipherOk;
      var sealed := cipher.seal(writeSeq, typ, plain);
      ok := sealed.Some?;
      if ok {
        ghost var r := Sealed(typ, plain, sealed.value);
        SealBound(cipher, writeSeq, typ, plain);
        StreamSnoc(log, r);
        assert intact ==> Stream(log) == bio.sent + buffer.contents;
        Regroup(bio.sent, [], buffer.contents, sealed.value);
        buffer.Append(sealed.value);
        log := log + [r];
        writeSeq := writeSeq + 1;
      }
    }

    /** What one more record of type `typ` with this plaintext does to the log. */
    ghost predicate Logged(before: seq<Sealed>, typ: u8, plain: seq<u8>)
      reads this`log
    {
      |log| == |before| + 1 && log == before + [log[|before|]] && log[|before|].typ == typ && log[|before|].plain == plain
    }

    /** A new record is not even sealed: it is empty or too long, something is in the way, or there is no room or no cipher. */
    predicate Declined(typ: u8, plain: seq<u8>)
      reads this`flight, this`flightOffset, this`writeSeq, buffer
    {
      || |plain| == 0 || |plain| > 16384 || buffer.size > 0
      || Wanted(|FlightRest()|, |plain|) >= U16 || cipher.seal(writeSeq, typ, plain).None?
    }

    /** Seals a new record, and starts to write it. */
    method WriteNew(typ: u8, plain: seq<u8>, addr: nat, address: nat) returns (ret: int)
      requires Valid() && !pending
      modifies this`flight, this`flightOffset, this`writeSeq, this`log, this`intact, this`pending, this`pendTot,
        this`pendAddr, this`pendType, this`pendRet, bio, buffer, buffer.buf
      ensures Valid() && old(bio.sent) <= bio.sent
      ensures buffer.buf == null || buffer.buf == old(buffer.buf) || fresh(buffer.buf)
      ensures FlightRest() == old(FlightRest()) || FlightRest() == []
      ensures intact <==> old(intact) && (RoomOk(old(|FlightRest()|), |plain|, address) || |plain| > 16384 || |plain| == 0 ||
                                         old(buffer.size) > 0 || old(buffer.cap) >= Wanted(old(|FlightRest()|), |plain|))
      ensures ret > 0 ==> !pending && ret == |plain| && Logged(old(log), typ, plain) && FlightRest() == []
      ensures ret <= 0 && !pending ==> log == old(log)
      ensures pending ==> ret <= 0 && Logged(old(log), typ, plain) && pendTot == |plain| && pendAddr == addr && pendType == typ
      ensures old(Declined(typ, plain)) <==> ret <= 0 && !pending
      ensures old(Declined(typ, plain)) ==> bio.answers == old(bio.answers)
      ensures !old(Declined(typ, plain)) ==>
                (ret > 0 <==> buffer.contents == []) && Went(old(bio.answers), old(Unsent()) + |plain| + cipher.overhead, ret > 0)
    {
      hide Stream, CipherOk, FlightRest, Pushed, RoomOk, Logged;
      if |plain| > MAX_PLAIN || buffer.size > 0 {
        return -1;
      }
      if |plain| == 0 {
        return 0;
      }
      var ok := MoveFlight(|plain|, address);
      if !ok {
        return -1;
      }
      ret := WriteSealed(typ, plain, addr);
      PushedMore(old(bio.answers), bio.answers);
    }

    /** Seals a record behind what is in the buffer, and starts to write all of it. */
    method WriteSealed(typ: u8, plain: seq<u8>, addr: nat) returns (ret: int)
      requires Valid() && !pending && FlightRest() == [] && |plain| > 0
      requires buffer.cap - buffer.size >= |plain| + cipher.overhead
      modifies this`writeSeq, this`log, this`pending, this`pendTot, this`pendAddr, this`pendType, this`pendRet, bio, buffer, buffer.buf
      ensures Valid() && FlightRest() == [] && old(bio.sent) <= bio.sent && (buffer.buf == old(buffer.buf) || buffer.buf == null)
      ensures ret <= 0 && !pending <==> cipher.seal(old(writeSeq), typ, plain).None?
      ensures ret <= 0 && !pending ==> log == old(log) && bio.answers == old(bio.answers)
      ensures ret > 0 ==> !pending && ret == |plain| && Logged(old(log), typ, plain)
      ensures pending ==> ret <= 0 && Logged(old(log), typ, plain) && pendTot == |plain| && pendAddr == addr && pendType == typ
      ensures ret > 0 || pending ==>
                var bytes := |old(buffer.contents)| + |plain| + cipher.overhead;
                && (ret > 0 <==> buffer.contents == []) && |buffer.contents| <= bytes
                && Pushed(old(bio.answers), bio.answers, bytes - |buffer.contents|, ret > 0)
    {
      hide Stream, CipherOk, FlightRest, Pushed, Takes, Blocks;
      var ok := SealToBuffer(typ, plain);
      if !ok {
        return -1;
      }
      StartPending(typ, plain, addr);
      ret := WritePending(typ, addr, |plain|);
      PushedMore(old(bio.answers), bio.answers);
    }

    /** Out of so many bytes at most, what is not on its way any more has gone out. */
    ghost predicate Went(before: seq<int>, bytes: nat, all: bool)
      reads this`flight, this`flightOffset, buffer, bio
    {
      Unsent() <= bytes && Pushed(before, bio.answers, bytes - Unsent(), all)
    }

    lemma PushedMore(before: seq<int>, after: seq<int>)
      ensures forall m: int, n: int, all: bool :: Pushed(before, after, m, all) && m <= n ==> Pushed(before, after, n, all)
    {
    }

    /** Remembers the arguments, so that a different retry is noticed. */
    method StartPending(typ: u8, plain: seq<u8>, addr: nat)
      requires Valid() && |plain| > 0
      modifies this`pending, this`pendTot, this`pendAddr, this`pendType, this`pendRet
      ensures Valid() && pending && pendTot == |plain| && pendRet == |plain| && pendAddr == addr && pendType == typ
    {
      pendTot, pendAddr, pendType, pendRet, pending := |plain|, addr, typ, |plain|, true;
    }

    /** A pending record waits for its own write call; a new one is not declined. */
    predicate CanGo(typ: u8, plain: seq<u8>, addr: nat)
      reads this`flight, this`flightOffset, this`writeSeq, this`pending, this`pendTot, this`pendAddr, this`pendType, buffer
    {
      if pending then Matches(typ, addr, |plain|) else !Declined(typ, plain)
    }

    /** Writes one record; a record that is still pending is written out first and answers the call. */
    method DoWrite(typ: u8, plain: seq<u8>, addr: nat, address: nat) returns (ret: int)
      requires Valid()
      modifies this`flight, this`flightOffset, this`writeSeq, this`log, this`intact, this`pending, this`pendTot,
        this`pendAddr, this`pendType, this`pendRet, bio, buffer, buffer.buf
      ensures Valid() && old(bio.sent) <= bio.sent
      ensures buffer.buf == null || buffer.buf == old(buffer.buf) || fresh(buffer.buf)
      ensures FlightRest() == old(FlightRest()) || FlightRest() == []
      ensures intact ==> old(intact)
      ensures old(intact) && (old(pending) || RoomOk(old(|FlightRest()|), |plain|, address)) ==> intact
      ensures old(pending) ==> log == old(log) && pendTot == old(pendTot) && pendAddr == old(pendAddr) && pendType == old(pendType)
      ensures old(pending) && ret > 0 ==> !pending && ret == pendTot <= |plain| && pendType == typ
      ensures old(pending) && ret <= 0 ==> pending
      ensures !old(pending) && ret > 0 ==> !pending && ret == |plain| && Logged(old(log), typ, plain)
      ensures !old(pending) && ret <= 0 && !pending ==> log == old(log)
      ensures !old(pending) && pending ==>
                ret <= 0 && Logged(old(log), typ, plain) && pendTot == |plain| && pendAddr == addr && pendType == typ
      ensures !old(CanGo(typ, plain, addr)) ==> ret <= 0 && bio.answers == old(bio.answers)
      ensures old(CanGo(typ, plain, addr)) ==>
                && (if ret > 0 then buffer.contents == [] else pending && buffer.contents != [])
                && Went(old(bio.answers), old(Unsent()) + (if old(pending) then 0 else |plain| + cipher.overhead), ret > 0)
    {
      hide Stream, CipherOk, FlightRest, Logged, Pushed, Declined, RoomOk;
      if pending {
        ret := WritePending(typ, addr, |plain|);
      } else {
        ret := WriteNew(typ, plain, addr, address);
      }
    }

    function Chunk(n: nat): nat {
      if n > maxSendFragment then maxSendFragment else n
    }

    /**
     A write of `inp` is under way: its first `tot` bytes are done, and a further record of it may be sealed
     and not yet written. Behind `base`, the application data sealed is just that much of `inp`.
     */
    ghost predicate Midway(base: seq<u8>, inp: seq<u8>, addr: nat, tot: nat)
      reads this`pending, this`pendType, this`pendTot, this`pendAddr, this`log
    {
      && tot <= |inp|
      && (pending ==>
            && pendType == APPLICATION_DATA && pendTot == Chunk(|inp| - tot)
            && (acceptMovingBuffer || pendAddr == addr + tot))
      && AppData(log) == base + inp[..tot + (if pending then Chunk(|inp| - tot) else 0)]
    }

    /** Nothing is in the way of the next record, which fits behind the flight. */
    predicate Ready()
      reads this`flight, this`flightOffset, this`pending, buffer
    {
      (pending || buffer.size == 0) && Wanted(|FlightRest()|, maxSendFragment) < U16
    }

    /** How much of a write of `n` bytes, with `tot` done, is yet to be sealed. */
    ghost function Unsealed(n: nat, tot: nat): nat
      requires tot <= n
      reads this`pending
    {
      n - tot - (if pending then Chunk(n - tot) else 0)
    }

    /** The transport will take bytes often enough for all that is left, even if it takes them one by one. */
    ghost predicate Enough(n: nat, tot: nat)
      reads this`flight, this`flightOffset, this`pending, buffer, bio
    {
      tot <= n && Takes(bio.answers) >= Unsent() + Unsealed(n, tot) * (1 + cipher.overhead)
    }

    lemma GoesOn(base: seq<u8>, inp: seq<u8>, addr: nat, tot: nat)
      requires Valid() && Midway(base, inp, addr, tot) && Ready() && Enough(|inp|, tot) && Seals(cipher) && tot < |inp|
      ensures Alive(inp, addr, tot)
    {
      hide Stream, AppData, CipherOk;
      RecordCost(|inp| - tot, Chunk(|inp| - tot), cipher.overhead);
    }

    lemma StaysReady(before: nat)
      requires Wanted(before, maxSendFragment) < U16 && |FlightRest()| <= before && (pending || buffer.contents == []) && Valid()
      ensures Ready()
    {
      hide Stream;
    }

    lemma EnoughLeft(before: seq<int>, bytes: nat, n: nat, tot: nat, ret: int)
      requires tot < n && Went(before, bytes, ret > 0)
      requires if ret > 0 then !pending && ret == Chunk(n - tot) else pending && buffer.contents != []
      requires Takes(before) >= bytes + (n - tot - Chunk(n - tot)) * (1 + cipher.overhead)
      ensures Enough(n, if ret > 0 then tot + ret else tot)
      ensures Blocks(bio.answers) + (if ret > 0 then 0 else 1) == Blocks(before)
    {
      hide Takes, Blocks, FlightRest;
      NotExhausted(before, bio.answers, bytes, Unsent(), (n - tot - Chunk(n - tot)) * (1 + cipher.overhead), ret > 0);
    }

    /** The record that comes next in a write. */
    method WriteRecord(inp: seq<u8>, addr: nat, address: nat, tot: nat) returns (ret: int)
      requires Valid() && tot <= |inp|
      modifies this`flight, this`flightOffset, this`writeSeq, this`log, this`intact, this`pending, this`pendTot,
        this`pendAddr, this`pendType, this`pendRet, bio, buffer, buffer.buf
      ensures Valid() && old(bio.sent) <= bio.sent
      ensures buffer.buf == null || buffer.buf == old(buffer.buf) || fresh(buffer.buf)
      ensures FlightRest() == old(FlightRest()) || FlightRest() == []
      ensures old(intact) && (old(pending) || RoomOk(old(|FlightRest()|), Chunk(|inp| - tot), address)) ==> intact
      ensures old(pending) ==> log == old(log) && pendTot == old(pendTot) && pendAddr == old(pendAddr) && pendType == old(pendType)
      ensures old(pending) && ret > 0 ==> !pending && ret == pendTot <= Chunk(|inp| - tot) && pendType == APPLICATION_DATA
      ensures old(pending) && ret <= 0 ==> pending
      ensures !old(pending) && ret > 0 ==> !pending && ret == Chunk(|inp| - tot) && Logged(old(log), APPLICATION_DATA, Piece(inp, tot))
      ensures !old(pending) && ret <= 0 && !pending ==> log == old(log)
      ensures !old(pending) && pending ==>
                && ret <= 0 && Logged(old(log), APPLICATION_DATA, Piece(inp, tot))
                && pendTot == Chunk(|inp| - tot) && pendAddr == addr + tot && pendType == APPLICATION_DATA
      ensures old(Alive(inp, addr, tot)) && ret <= Chunk(|inp| - tot) && (ret > 0 ==> ret == Chunk(|inp| - tot)) ==>
                && Ready() && Enough(|inp|, if ret > 0 then tot + ret else tot)
                && Blocks(bio.answers) + (if ret > 0 then 0 else 1) == Blocks(old(bio.answers))
    {
      hide Stream, CipherOk, Valid, AppData, Ready, Enough, CanGo, Went, FlightRest, Logged, RoomOk;
      ghost var live, was := Alive(inp, addr, tot), pending;
      ret := DoWrite(APPLICATION_DATA, Piece(inp, tot), addr + tot, address);
      if live && (ret > 0 ==> ret == Chunk(|inp| - tot)) {
        StaysReady(old(|FlightRest()|));
        EnoughLeft(old(bio.answers), old(Unsent()) + (if was then 0 else Chunk(|inp| - tot) + cipher.overhead), |inp|, tot, ret);
      }
    }

    function Piece(inp: seq<u8>, tot: nat): (p: seq<u8>)
      requires tot <= |inp|
      ensures |p| == Chunk(|inp| - tot)
    {
      inp[tot..tot + Chunk(|inp| - tot)]
    }

    /** The next record can go, and the transport will take it and the rest. */
    ghost predicate Alive(inp: seq<u8>, addr: nat, tot: nat)
      reads this`flight, this`flightOffset, this`writeSeq, this`pending, this`pendTot, this`pendAddr, this`pendType, buffer, bio
    {
      && tot < |inp| && Wanted(|FlightRest()|, maxSendFragment) < U16
      && var nw := Chunk(|inp| - tot);
         && CanGo(APPLICATION_DATA, Piece(inp, tot), addr + tot)
         && Takes(bio.answers) >= Unsent() + (if pending then 0 else nw + cipher.overhead)
                                  + (|inp| - tot - nw) * (1 + cipher.overhead)
    }

    /** One record of a write. */
    method WriteChunk(inp: seq<u8>, addr: nat, address: nat, tot: nat, ghost base: seq<u8>) returns (ret: int)
      requires Valid() && tot <= |inp|
      modifies this`flight, this`flightOffset, this`writeSeq, this`log, this`intact, this`pending, this`pendTot,
        this`pendAddr, this`pendType, this`pendRet, bio, buffer, buffer.buf
      ensures Valid() && old(bio.sent) <= bio.sent
      ensures buffer.buf == null || buffer.buf == old(buffer.buf) || fresh(buffer.buf)
      ensures FlightRest() == old(FlightRest()) || FlightRest() == []
      ensures old(intact) && (old(pending) || RoomOk(old(|FlightRest()|), Chunk(|inp| - tot), address)) ==> intact
      ensures ret > 0 ==> !pending && ret <= Chunk(|inp| - tot)
      ensures old(Midway(base, inp, addr, tot)) && ret > 0 ==> ret == Chunk(|inp| - tot) && Midway(base, inp, addr, tot + ret)
      ensures old(Midway(base, inp, addr, tot)) && ret <= 0 ==> Midway(base, inp, addr, tot)
      ensures old(Midway(base, inp, addr, tot)) && old(Ready()) && old(Enough(|inp|, tot)) && Seals(cipher) && tot < |inp| ==>
                && Ready() && Enough(|inp|, if ret > 0 then tot + ret else tot)
                && Blocks(bio.answers) + (if ret > 0 then 0 else 1) == Blocks(old(bio.answers))
    {
      hide Stream, CipherOk, Valid, AppData, Ready, Enough, Alive, FlightRest;
      ghost var log0 := log;
      if Midway(base, inp, addr, tot) && Ready() && Enough(|inp|, tot) && Seals(cipher) && tot < |inp| {
        GoesOn(base, inp, addr, tot);
      }
      ret := WriteRecord(inp, addr, address, tot);
      assert base + inp[..tot] + Piece(inp, tot) == base + inp[..tot + Chunk(|inp| - tot)] by {
        assert inp[..tot] + Piece(inp, tot) == inp[..tot + Chunk(|inp| - tot)];
      }
      if |log| > |log0| {
        StreamSnoc(log0, log[|log0|]);
      }
    }

    /** No block that a write of `n` bytes can ask for, from `from` on, is out of reach; `places` says where each is put. */
    ghost predicate Rooms(rest: nat, n: nat, from: nat, places: nat -> nat) {
      forall t: nat {:trigger places(t)} | from <= t <= n :: RoomOk(rest, Chunk(n - t), places(t))
    }

    /** With no flight to move, a record always fits. */
    lemma RoomKept(n: nat, from: nat, places: nat -> nat)
      requires Valid()
      ensures Rooms(0, n, from, places)
    {
      SealBound(cipher, 0, 0, []);
    }

    /** Nothing stands between a write, from `tot` on, and its success but what the transport answers. */
    ghost predicate Live(base: seq<u8>, inp: seq<u8>, addr: nat, tot: nat)
      reads this`flight, this`flightOffset, this`writeSeq, this`pending, this`pendTot, this`pendAddr, this`pendType, this`log,
        this`shutdown, buffer, bio
    {
      && !shutdown && tot < |inp| && Midway(base, inp, addr, tot) && Ready() && Enough(|inp|, tot) && Seals(cipher)
    }

    /**
     Writes application data. A call that does not succeed may be made again with the same arguments; the
     call that succeeds has put the bytes it reports into records, each once and in order.
     */
    method WriteAppData(inp: seq<u8>, addr: nat, places: nat -> nat, ghost base: seq<u8>) returns (ret: int)
      requires Valid() && |inp| <= INT_MAX
      modifies this, bio, buffer, buffer.buf
      ensures Valid() && old(bio.sent) <= bio.sent
      ensures buffer.buf == null || buffer.buf == old(buffer.buf) || fresh(buffer.buf)
      ensures FlightRest() == old(FlightRest()) || FlightRest() == []
      ensures old(intact) && Rooms(old(|FlightRest()|), |inp|, old(wnum), places) ==> intact
      ensures old(Midway(base, inp, addr, wnum)) && ret > 0 ==>
                !pending && wnum == 0 && ret <= |inp| && AppData(log) == base + inp[..ret] && (ret == |inp| || partialWrite)
      ensures old(Midway(base, inp, addr, wnum)) && ret <= 0 ==> Midway(base, inp, addr, wnum)
      ensures partialWrite && ret <= 0 ==> wnum == old(wnum) || wnum == 0
      ensures old(Live(base, inp, addr, wnum)) && ret > 0 ==>
                && Blocks(bio.answers) == Blocks(old(bio.answers))
                && ret == if partialWrite then old(wnum) + Chunk(|inp| - old(wnum)) else |inp|
      ensures old(Live(base, inp, addr, wnum)) && ret <= 0 ==>
                Blocks(bio.answers) + 1 == Blocks(old(bio.answers)) && Live(base, inp, addr, wnum)
    {
      hide Stream, CipherOk, Valid, AppData, RoomOk, FlightRest, Ready, Enough, Seals, Blocks;
      if shutdown {
        return -1;
      }
      var tot := wnum;
      wnum := 0;
      if |inp| < tot {
        return -1;
      }
      ghost var b := buffer.buf;
      while true
        invariant Valid() && old(bio.sent) <= bio.sent
        invariant buffer.buf == null || buffer.buf == b || fresh(buffer.buf)
        invariant FlightRest() == old(FlightRest()) || FlightRest() == []
        invariant old(wnum) <= tot <= |inp| && wnum == 0
        invariant old(intact) && Rooms(old(|FlightRest()|), |inp|, old(wnum), places) ==> intact && Rooms(|FlightRest()|, |inp|, old(wnum), places)
        invariant old(Midway(base, inp, addr, wnum)) ==> Midway(base, inp, addr, tot)
        invariant !shutdown && (partialWrite ==> tot == old(wnum))
        invariant old(Live(base, inp, addr, wnum)) ==>
                    Live(base, inp, addr, tot) && Blocks(bio.answers) == Blocks(old(bio.answers))
        decreases |inp| - tot
      {
        ret := WriteChunk(inp, addr, places(tot), tot, base);
        RoomKept(|inp|, old(wnum), places);
        if ret <= 0 {
          wnum := tot;
          return;
        }
        if ret == |inp| - tot || partialWrite {
          return tot + ret;
        }
        tot := tot + ret;
      }
    }

    /**
     Writes out the pending flight, behind whatever is in the write buffer. A write call that was under way
     stays where it was.
     */
    method FlushFlight() returns (ret: int)
      requires Valid()
      modifies this`flight, this`flightOffset, bio, buffer
      ensures Valid() && old(bio.sent) <= bio.sent
      ensures ret > 0 && old(flight).Some? ==> flight == None && (intact ==> bio.sent == Stream(log))
      ensures old(flight).None? ==> ret == 1 && bio.sent == old(bio.sent)
      ensures old(flight).Some? && !shutdown && |old(flight).value| <= INT_MAX && Takes(old(bio.answers)) > old(Unsent()) ==>
                Blocks(bio.answers) + (if ret > 0 then 0 else 1) == Blocks(old(bio.answers))
    {
      hide Stream, CipherOk, Takes, Blocks, Went, Unsent;
      if flight.None? {
        return 1;
      }
      if shutdown || |flight.value| > INT_MAX {
        return -1;
      }
      ret := WriteEverything();
      BlockedOnce(old(bio.answers), old(Unsent()), ret > 0);
      if ret <= 0 {
        return;
      }
      FirstAnswer(bio.answers);
      var flushed := bio.Answer();
      if flushed <= 0 {
        return -1;
      }
      flight := None;
      flightOffset := 0;
      ret := 1;
    }

    /** With an answer more than there are bytes, one is left at the end, or the transport has refused. */
    lemma BlockedOnce(before: seq<int>, bytes: nat, all: bool)
      requires Went(before, bytes, all) && (all <==> Unsent() == 0)
      ensures Takes(before) > bytes ==>
                Blocks(bio.answers) + (if all then 0 else 1) == Blocks(before) && (all ==> Takes(bio.answers) > 0)
    {
      hide Takes, Blocks, FlightRest;
      if Takes(before) > bytes {
        NotExhausted(before, bio.answers, bytes, Unsent(), 1, all);
      }
    }

    /** What is in the buffer, and then the rest of the flight. */
    method WriteEverything() returns (ret: int)
      requires Valid() && flight.Some?
      modifies this`flightOffset, bio, buffer
      ensures Valid() && old(bio.sent) <= bio.sent && (intact && ret > 0 ==> bio.sent == Stream(log))
      ensures (ret > 0 <==> Unsent() == 0) && Went(old(bio.answers), old(Unsent()), ret > 0)
    {
      hide Stream, CipherOk, Takes, Blocks;
      if buffer.size > 0 {
        ret := FlushBuffer();
        if ret <= 0 {
          return;
        }
      }
      assert buffer.contents == [] && Went(old(bio.answers), old(Unsent()), true);
      ret := WriteOutFlight();
    }

    /** The rest of the flight, in as many pieces as it takes. */
    method WriteOutFlight() returns (ret: int)
      requires Valid() && buffer.contents == [] && flight.Some?
      modifies this`flightOffset, bio
      ensures Valid() && old(bio.sent) <= bio.sent && (ret > 0 <==> FlightRest() == [])
      ensures forall before, n: nat :: old(Went(before, n, true)) ==> Went(before, n, ret > 0)
    {
      hide Stream, CipherOk, Pushed;
      while flightOffset < |flight.value|
        invariant Valid() && old(bio.sent) <= bio.sent
        invariant forall before, n: nat :: old(Went(before, n, true)) ==> Went(before, n, true)
        decreases |flight.value| - flightOffset
      {
        ret := WriteFlight();
        if ret <= 0 {
          return;
        }
      }
      ret := 1;
    }

    method FlushBuffer() returns (ret: int)
      requires Valid()
      modifies bio, buffer
      ensures Valid() && old(bio.sent) <= bio.sent
      ensures ret > 0 <==> buffer.contents == []
      ensures Went(old(bio.answers), old(Unsent()), ret > 0)
    {
      hide Stream, CipherOk, Takes, Blocks;
      ret := buffer.Flush(bio);
    }

    /** One piece of the flight. */
    method WriteFlight() returns (ret: int)
      requires Valid() && buffer.contents == [] && flight.Some? && flightOffset < |flight.value|
      modifies this`flightOffset, bio
      ensures Valid() && old(bio.sent) <= bio.sent && flightOffset >= old(flightOffset)
      ensures ret > 0 ==> flightOffset == old(flightOffset) + ret
      ensures ret <= 0 ==> flightOffset == old(flightOffset)
      ensures forall before, n: nat :: old(Went(before, n, true)) ==> Went(before, n, ret > 0)
    {
      hide Stream, CipherOk;
      FirstAnswer(bio.answers);
      ghost var sent, rest := bio.sent, FlightRest();
      ret := bio.Write(flight.value[flightOffset..]);
      if ret > 0 {
        Moved(sent, rest, ret);
        flightOffset := flightOffset + ret;
        assert FlightRest() == rest[ret..];
      }
    }

    /**
     The caller's loop: the same write, tried again and again while the transport blocks. When it succeeds, its
     plaintext has been sealed exactly once.
     */
    method WriteRetried(inp: seq<u8>, addr: nat, places: seq<nat -> nat>) returns (ret: int)
      requires Valid() && |inp| <= INT_MAX && wnum == 0 && !pending
      modifies this, bio, buffer, buffer.buf
      ensures Valid() && old(bio.sent) <= bio.sent
      ensures old(intact) && (forall i :: 0 <= i < |places| ==> Rooms(old(|FlightRest()|), |inp|, 0, places[i])) ==> intact
      ensures ret > 0 ==> ret <= |inp| && AppData(log) == AppData(old(log)) + inp[..ret] && (ret == |inp| || partialWrite)
      ensures !old(shutdown) && inp != [] && old(Ready()) && Seals(cipher) && old(Enough(|inp|, 0))
              && Blocks(old(bio.answers)) < |places| ==>
                ret == if partialWrite then Chunk(|inp|) else |inp|
    {
      hide Stream, CipherOk, Valid, AppData, Ready, Enough, Seals, Blocks;
      ghost var base, b := AppData(log), buffer.buf;
      assert base + inp[..0] == base;
      ret := -1;
      for i := 0 to |places|
        invariant Valid() && old(bio.sent) <= bio.sent
        invariant FlightRest() == old(FlightRest()) || FlightRest() == []
        invariant old(intact) && (forall i :: 0 <= i < |places| ==> Rooms(old(|FlightRest()|), |inp|, 0, places[i])) ==> intact
        invariant buffer.buf == null || buffer.buf == b || fresh(buffer.buf)
        invariant ret <= 0 && Midway(base, inp, addr, wnum) && (partialWrite ==> wnum == 0)
        invariant !old(shutdown) && inp != [] && old(Ready()) && Seals(cipher) && old(Enough(|inp|, 0)) ==>
                    Live(base, inp, addr, wnum) && Blocks(bio.answers) + i == Blocks(old(bio.answers))
      {
        RoomKept(|inp|, 0, places[i]);
        ret := WriteAppData(inp, addr, places[i], base);
        if ret > 0 {
          return;
        }
      }
    }
  }

  lemma FirstAnswer(answers: seq<int>)
    ensures answers != [] ==> Takes(answers) == (if answers[0] > 0 then 1 else 0) + Takes(answers[1..])
    ensures answers != [] ==> Blocks(answers) == (if answers[0] > 0 then 0 else 1) + Blocks(answers[1..])
    ensures Takes([]) == 0 && Blocks([]) == 0
  {
  }

  /** Each record has a byte of the plaintext at least, so the rest of the budget covers the rest of the records. */
  lemma RecordCost(n: nat, c: nat, o: nat)
    requires 1 <= c <= n
    ensures n * (1 + o) >= c + o + (n - c) * (1 + o)
  {
    assert n * (1 + o) == c * (1 + o) + (n - c) * (1 + o);
    assert c * (1 + o) == c + c * o;
    assert c * o >= o;
  }

  /** With answers for all bytes, what stops a write is a refusal, and answers for the rest are left. */
  lemma NotExhausted(before: seq<int>, after: seq<int>, bytes: nat, unsent: nat, rest: nat, all: bool)
    requires unsent <= bytes && Pushed(before, after, bytes - unsent, all) && (!all ==> unsent > 0)
    requires Takes(before) >= bytes + rest
    ensures Takes(after) >= unsent + rest && Blocks(after) + (if all then 0 else 1) == Blocks(before)
  {
  }

  lemma Regroup(a: seq<u8>, b: seq<u8>, c: seq<u8>, d: seq<u8>)
    ensures a + b + c + d == a + b + (c + d)
    ensures b == [] ==> a + c + d == a + (c + d)
  {
  }

  lemma SealBound(c: Cipher, n: nat, typ: u8, plain: seq<u8>)
    requires CipherOk(c)
    ensures c.seal(n, typ, plain).Some? ==> 0 < |c.seal(n, typ, plain).value| <= |plain| + c.overhead
    ensures c.overhead <= 0x4000
  {
  }

  lemma NoPlaintext()
    ensures Plaintext([]) == []
  {
  }

  lemma SplitAt(a: seq<u8>, b: seq<u8>, n: nat)
    requires n <= |b|
    ensures (a + b[..n]) + b[n..] == a + b
  {
    assert b[..n] + b[n..] == b;
  }

  /** The plaintext of records, end to end. */
  function Plaintext(log: seq<Sealed>): seq<u8> {
    if log == [] then [] else Plaintext(log[..|log| - 1]) + log[|log| - 1].plain
  }

  lemma PlaintextSnoc(log: seq<Sealed>, r: Sealed)
    ensures Plaintext(log + [r]) == Plaintext(log) + r.plain
  {
    assert (log + [r])[..|log + [r]| - 1] == log;
  }
}
