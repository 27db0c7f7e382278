/**
 Reading handshake messages out of TLS records: record bodies are gathered in a buffer, and a message is
 taken from its front once all of it is there. However the sender cut its messages into records, they come
 out whole and in order.
 */
module TlsReader {
  import opened Prelude
  import opened DtlsFragment

  const HANDSHAKE: u8 := 22
  const MESSAGE_HEADER := 4

  datatype Message = Message(typ: u8, body: seq<u8>)

  /** Either how many bytes there must be before more can be said, or the first message and what follows it. */
  datatype Parsed = Needs(n: nat) | Found(m: Message, after: seq<u8>)

  function Raw(m: Message): (b: seq<u8>)
    ensures |b| == MESSAGE_HEADER + |m.body|
  {
    [m.typ] + Big24(|m.body|) + m.body
  }

  /** The layout of section 7.4 of RFC 5246: type, length in three bytes, and then the body. */
  lemma Layout(m: Message)
    requires |m.body| < 0x100_0000
    ensures Raw(m) == [m.typ, |m.body| / 0x1_0000, |m.body| / 256 % 256, |m.body| % 256] + m.body
  {
  }

  function Stream(ms: seq<Message>): seq<u8> {
    if ms == [] then [] else Stream(ms[..|ms| - 1]) + Raw(ms[|ms| - 1])
  }

  function ParseMessage(b: seq<u8>): (r: Parsed)
    ensures r.Needs? ==> |b| < r.n
    ensures r.Found? ==> |r.m.body| < U24 && b == Raw(r.m) + r.after
  {
    if |b| < MESSAGE_HEADER then Needs(MESSAGE_HEADER)
    else if |b| - MESSAGE_HEADER < Get24(b, 1) then Needs(MESSAGE_HEADER + Get24(b, 1))
    else
      var len := Get24(b, 1);
      RawBack(b, len);
      Found(Message(b[0], b[MESSAGE_HEADER..MESSAGE_HEADER + len]), b[MESSAGE_HEADER + len..])
  }

  lemma RawBack(b: seq<u8>, len: nat)
    requires MESSAGE_HEADER + len <= |b| && len == Get24(b, 1)
    ensures b == Raw(Message(b[0], b[MESSAGE_HEADER..MESSAGE_HEADER + len])) + b[MESSAGE_HEADER + len..]
  {
    hide Get24, Big24;
    Big24Back(b, 1);
    assert b == [b[0]] + b[1..4] + b[4..4 + len] + b[4 + len..];
  }

  /**
   On any part of what was sent, the first message is found exactly when all of it is there; until then the
   number of bytes asked for is one that the message does have.
   */
  lemma PrefixParse(b: seq<u8>, m: Message, t: seq<u8>)
    requires |m.body| < U24 && b <= Raw(m) + t
    ensures ParseMessage(b).Found? <==> |b| >= |Raw(m)|
    ensures ParseMessage(b).Found? ==> ParseMessage(b) == Found(m, b[|Raw(m)|..])
    ensures ParseMessage(b).Needs? ==> ParseMessage(b).n <= |Raw(m)|
  {
    hide Get24, Big24;
    var s := Raw(m) + t;
    Big24Digits(|m.body|);
    if |b| >= MESSAGE_HEADER {
      assert b[1..4] == s[1..4] == Big24(|m.body|);
      SameDigits(b, Big24(|m.body|));
      if |b| >= |Raw(m)| {
        assert b[MESSAGE_HEADER..|Raw(m)|] == s[MESSAGE_HEADER..|Raw(m)|] == m.body;
        assert b[0] == s[0] == m.typ;
      }
    }
  }

  lemma SameDigits(b: seq<u8>, d: seq<u8>)
    requires |b| >= 4 && |d| == 3 && b[1..4] == d
    ensures Get24(b, 1) == Get24(d, 0)
  {
    assert b[1] == b[1..4][0] && b[2] == b[1..4][1] && b[3] == b[1..4][2];
  }

  /** The handshake buffer: `length` bytes at the front of `data`. */
  class Reader {
    var data: array?<u8>
    var length: nat
    var hasMessage: bool
    ghost var contents: seq<u8>

    ghost predicate Valid()
      reads this, data
    {
      && (data == null ==> length == 0)
      && (data != null ==> length <= data.Length)
      && contents == (if data == null then [] else data[..length])
    }

    constructor ()
      ensures Valid() && contents == [] && data == null && !hasMessage
    {
      data, length, hasMessage, contents := null, 0, false, [];
    }

    method Parse() returns (r: Parsed)
      requires Valid()
      ensures r == ParseMessage(contents)
    {
      if data == null || length < MESSAGE_HEADER {
        return Needs(MESSAGE_HEADER);
      }
      var len := (data[1] as nat * 256 + data[2] as nat) * 256 + data[3] as nat;
      assert len == Get24(contents, 1);
      if length - MESSAGE_HEADER < len {
        return Needs(MESSAGE_HEADER + len);
      }
      assert contents[MESSAGE_HEADER..MESSAGE_HEADER + len] == data[MESSAGE_HEADER..MESSAGE_HEADER + len];
      assert contents[MESSAGE_HEADER + len..] == data[MESSAGE_HEADER + len..length];
      return Found(Message(data[0], data[MESSAGE_HEADER..MESSAGE_HEADER + len]), data[MESSAGE_HEADER + len..length]);
    }

    /** The message at the front, if it is all there. */
    method GetMessage() returns (m: Option<Message>)
      requires Valid()
      modifies this`hasMessage
      ensures Valid()
      ensures m == (match ParseMessage(contents) case Needs(_) => None case Found(first, _) => Some(first))
      ensures hasMessage <==> old(hasMessage) || m.Some?
    {
      var r := Parse();
      if r.Needs? {
        return None;
      }
      hasMessage := true;
      return Some(r.m);
    }

    /** Whether more may be read: not while a message waits, and not for one that is too long. */
    method CanAccept(maxLen: nat) returns (ok: bool)
      requires Valid()
      ensures ok <==> ParseMessage(contents).Needs? && ParseMessage(contents).n <= MESSAGE_HEADER + maxLen
    {
      var r := Parse();
      return r.Needs? && r.n <= MESSAGE_HEADER + maxLen;
    }

    /** Whether there is anything besides the message being processed. */
    method HasUnprocessed() returns (more: bool)
      requires Valid()
      ensures more <==> if hasMessage && ParseMessage(contents).Found? then ParseMessage(contents).after != [] else contents != []
    {
      var msgLen: nat := 0;
      if hasMessage {
        var r := Parse();
        if r.Found? {
          msgLen := |Raw(r.m)|;
        }
      }
      return data != null && length > msgLen;
    }

    /** Takes in an opened record, which must be a handshake record. */
    method OpenHandshake(typ: u8, body: seq<u8>) returns (ok: bool)
      requires Valid()
      modifies this`data, this`length, this`contents, data
      ensures Valid() && data != null && (data == old(data) || fresh(data))
      ensures ok <==> typ == 22
      ensures contents == if ok then old(contents) + body else old(contents)
    {
      if data == null {
        data := new u8[0];
      }
      if typ != HANDSHAKE {
        return false;
      }
      if |body| > data.Length - length {
        var bigger := new u8[length + |body|];
        forall i | 0 <= i < length {
          bigger[i] := data[i];
        }
        data := bigger;
      }
      forall i | 0 <= i < |body| {
        data[length + i] := body[i];
      }
      length := length + |body|;
      contents := contents + body;
      assert data[..length] == contents;
      return true;
    }

    /** Drops the message at the front: what follows it moves down. */
    method NextMessage(inInit: bool)
      requires Valid() && ParseMessage(contents).Found?
      modifies this, data
      ensures Valid() && contents == ParseMessage(old(contents)).after && !hasMessage
      ensures data == old(data) || (data == null && !inInit && contents == [])
    {
      hide Raw, ParseMessage, Get24, Big24;
      ghost var was := contents;
      var r := Parse();
      var n := |Raw(r.m)|;
      ParsedWhole(was);
      forall i | 0 <= i < length - n {
        data[i] := data[i + n];
      }
      length := length - n;
      contents := r.after;
      assert data[..length] == was[n..] == r.after;
      hasMessage := false;
      if !inInit && length == 0 {
        data := null;
      }
    }
  }

  // ---------------------------------------------------------------- whole runs

  /** A record arrives, or the message at the front, if it is all there, is read and dropped. */
  datatype Event = Record(body: seq<u8>) | Read

  datatype Run = Run(buf: seq<u8>, out: seq<Message>)

  function Step(r: Run, e: Event): Run {
    match e
    case Record(body) => r.(buf := r.buf + body)
    case Read =>
      match ParseMessage(r.buf)
      case Needs(_) => r
      case Found(m, after) => Run(after, r.out + [m])
  }

  function Exec(events: seq<Event>): Run {
    if events == [] then Run([], []) else Step(Exec(events[..|events| - 1]), events[|events| - 1])
  }

  /** The bodies of the records, end to end. */
  function Received(events: seq<Event>): seq<u8> {
    if events == [] then []
    else
      var last := events[|events| - 1];
      Received(events[..|events| - 1]) + (if last.Record? then last.body else [])
  }

  lemma {:induction false} StreamSplit(ms: seq<Message>, k: nat)
    requires k <= |ms|
    ensures Stream(ms[..k]) <= Stream(ms)
    ensures k < |ms| ==> Stream(ms[..k]) + Raw(ms[k]) <= Stream(ms)
  {
    if k == |ms| {
      assert ms[..k] == ms;
    } else {
      var front := ms[..|ms| - 1];
      if k == |front| {
        assert front == ms[..k];
      } else {
        StreamSplit(front, k);
        assert front[..k] == ms[..k] && front[k] == ms[k];
      }
    }
  }

  lemma StreamSnoc(ms: seq<Message>, m: Message)
    ensures Stream(ms + [m]) == Stream(ms) + Raw(m)
  {
    assert (ms + [m])[..|ms + [m]| - 1] == ms;
  }

  predicate Sendable(msgs: seq<Message>) {
    forall k :: 0 <= k < |msgs| ==> |msgs[k].body| < U24
  }

  predicate Good(msgs: seq<Message>, received: seq<u8>, r: Run) {
    r.out <= msgs && Stream(r.out) + r.buf == received && received <= Stream(msgs)
  }

  /** What is in the buffer is the start of the next message and of those behind it. */
  lemma NextUp(msgs: seq<Message>, received: seq<u8>, r: Run)
    requires Good(msgs, received, r) && Sendable(msgs)
    ensures ParseMessage(r.buf).Found? <==> |r.out| < |msgs| && |Stream(msgs[..|r.out| + 1])| <= |received|
    ensures ParseMessage(r.buf).Found? ==> ParseMessage(r.buf).m == msgs[|r.out|]
  {
    hide Raw, ParseMessage, Stream;
    var k := |r.out|;
    assert msgs[..k] == r.out;
    StreamSplit(msgs, k);
    if k == |msgs| {
      assert msgs[..k] == msgs;
      assert r.buf == [];
      NothingToParse();
    } else {
      var done := Stream(r.out);
      var t := Stream(msgs)[|done| + |Raw(msgs[k])|..];
      assert Stream(msgs) == done + (Raw(msgs[k]) + t);
      assert r.buf == received[|done|..] <= Stream(msgs)[|done|..] == Raw(msgs[k]) + t;
      PrefixParse(r.buf, msgs[k], t);
      StreamSnoc(r.out, msgs[k]);
      assert msgs[..k + 1] == r.out + [msgs[k]];
    }
  }

  lemma NothingToParse()
    ensures ParseMessage([]) == Needs(MESSAGE_HEADER)
  {
  }

  lemma {:induction false} ExecGood(msgs: seq<Message>, events: seq<Event>)
    requires Received(events) <= Stream(msgs) && Sendable(msgs)
    ensures Good(msgs, Received(events), Exec(events))
  {
    hide ParseMessage, Raw, Stream, Good, Step;
    if events == [] {
      NothingRead(msgs);
    } else {
      var before, last := events[..|events| - 1], events[|events| - 1];
      ExecGood(msgs, before);
      if last.Record? {
        RecordGood(msgs, Received(before), Exec(before), last.body);
      } else {
        ReadGood(msgs, Received(before), Exec(before));
        assert last == Read && Received(before) + [] == Received(before);
      }
    }
  }

  lemma NothingRead(msgs: seq<Message>)
    ensures Good(msgs, [], Run([], []))
  {
  }

  lemma RecordGood(msgs: seq<Message>, received: seq<u8>, r: Run, body: seq<u8>)
    requires Good(msgs, received, r) && received + body <= Stream(msgs)
    ensures Good(msgs, received + body, Step(r, Record(body)))
  {
    hide Stream;
    assert Stream(r.out) + (r.buf + body) == Stream(r.out) + r.buf + body;
  }

  lemma ReadGood(msgs: seq<Message>, received: seq<u8>, r: Run)
    requires Good(msgs, received, r) && Sendable(msgs)
    ensures Good(msgs, received, Step(r, Read))
  {
    hide ParseMessage, Raw, Stream;
    var p := ParseMessage(r.buf);
    if p.Found? {
      NextUp(msgs, received, r);
      StreamSnoc(r.out, p.m);
      ParsedWhole(r.buf);
      assert Stream(r.out) + (Raw(p.m) + p.after) == Stream(r.out) + Raw(p.m) + p.after;
    }
  }

  lemma ParsedWhole(b: seq<u8>)
    ensures ParseMessage(b).Found? ==> b == Raw(ParseMessage(b).m) + ParseMessage(b).after
  {
  }

  /**
   However a stream of messages is cut into records and whenever the reader looks, it has read a prefix of
   the messages, nothing twice and nothing missing; and it can read another exactly when its last byte is in.
   */
  lemma InOrder(msgs: seq<Message>, events: seq<Event>)
    requires Received(events) <= Stream(msgs) && Sendable(msgs)
    ensures var r := Exec(events);
            && r.out <= msgs
            && (ParseMessage(r.buf).Found? <==> |r.out| < |msgs| && |Stream(msgs[..|r.out| + 1])| <= |Received(events)|)
            && (|r.out| == |msgs| && Received(events) == Stream(msgs) ==> r.buf == [])
  {
    hide ParseMessage, Raw, Stream, Good, Exec, Received, Sendable;
    ExecGood(msgs, events);
    GoodMeans(msgs, Received(events), Exec(events));
  }

  lemma GoodMeans(msgs: seq<Message>, received: seq<u8>, r: Run)
    requires Good(msgs, received, r) && Sendable(msgs)
    ensures r.out <= msgs
    ensures ParseMessage(r.buf).Found? <==> |r.out| < |msgs| && |Stream(msgs[..|r.out| + 1])| <= |received|
    ensures |r.out| == |msgs| && received == Stream(msgs) ==> r.buf == []
  {
    hide ParseMessage, Raw, Stream, Sendable;
    NextUp(msgs, received, r);
    if |r.out| == |msgs| && received == Stream(msgs) {
      assert r.out == msgs;
      assert |Stream(msgs) + r.buf| == |Stream(msgs)|;
    }
  }
}
