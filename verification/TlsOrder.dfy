/**
 What one side has said and heard, against any peer at all: the order of the messages, and the checks that a
 Finished and a signature are over everything before them.
 */
module TlsOrder {
  import opened Prelude
  import opened TlsScript
  import opened TlsEndpoint

  /** A message, or a ChangeCipherSpec, that was sent or was taken in. */
  datatype Entry = Entry(sent: bool, item: Item)

  /** The handshake messages among the entries. */
  function Messages(log: seq<Entry>): Transcript {
    if log == [] then [] else After(Messages(log[..|log| - 1]), log[|log| - 1].item)
  }

  lemma MessagesSnoc(log: seq<Entry>, e: Entry)
    ensures Messages(log + [e]) == After(Messages(log), e.item)
  {
    assert (log + [e])[..|log|] == log;
  }

  lemma MessagesOne(said: Transcript, e: Entry)
    ensures said + Messages([e]) == After(said, e.item) && said + Messages([]) == said
  {
    assert [e][..0] == [];
  }

  lemma {:induction false} MessagesConcat(a: seq<Entry>, b: seq<Entry>)
    ensures Messages(a + b) == Messages(a) + Messages(b)
    decreases |b|
  {
    if b == [] {
      assert a + b == a;
    } else {
      var front := b[..|b| - 1];
      MessagesConcat(a, front);
      assert (a + b)[..|a + b| - 1] == a + front;
    }
  }

  /** The kind of an entry in the log of the client, or of the server. */
  function KindOf(client: bool, e: Entry): Kind {
    match e.item
    case ChangeCipherSpec => if e.sent == client then KClientCcs else KServerCcs
    case Handshake(m) => MessageKind(e.sent == client, m)
  }

  function MessageKind(byClient: bool, m: Message): Kind {
    match m
    case ClientHello => KClientHello
    case ServerHello(_) => KServerHello
    case Certificate(_) => if byClient then KClientCert else KServerCert
    case CertificateStatus => KStatus
    case ServerKeyExchange => KServerKey
    case CertificateRequest => KCertRequest
    case ServerHelloDone => KHelloDone
    case ClientKeyExchange => KClientKey
    case CertificateVerify(_) => KCertVerify
    case NextProto => KNextProto
    case ChannelId(_) => KChannelId
    case NewSessionTicket(_) => KTicket
    case Finished(_) => if byClient then KClientFinished else KServerFinished
  }

  const NOWHERE := 17

  /** The place of a kind in the order of a run. */
  function Pos(resumed: bool, k: Kind): nat {
    match k
    case KClientHello => 0
    case KServerHello => 1
    case KServerCert => if resumed then NOWHERE else 2
    case KStatus => if resumed then NOWHERE else 3
    case KServerKey => if resumed then NOWHERE else 4
    case KCertRequest => if resumed then NOWHERE else 5
    case KHelloDone => if resumed then NOWHERE else 6
    case KClientCert => if resumed then NOWHERE else 7
    case KClientKey => if resumed then NOWHERE else 8
    case KCertVerify => if resumed then NOWHERE else 9
    case KClientCcs => if resumed then 5 else 10
    case KNextProto => if resumed then 6 else 11
    case KChannelId => if resumed then 7 else 12
    case KClientFinished => if resumed then 8 else 13
    case KTicket => if resumed then 2 else 14
    case KServerCcs => if resumed then 3 else 15
    case KServerFinished => if resumed then 4 else 16
  }

  lemma PosInjective(resumed: bool, k: Kind, k': Kind)
    requires Pos(resumed, k) == Pos(resumed, k') < NOWHERE
    ensures k == k'
  {
  }

  /** What belongs to the server's last places, and to the client's. */
  lemma LastPlaces(resumed: bool, k: Kind)
    ensures Pos(resumed, KTicket) <= Pos(resumed, k) < Pos(resumed, KTicket) + 3 ==> k in {KTicket, KServerCcs, KServerFinished}
    ensures Pos(resumed, KClientCcs) <= Pos(resumed, k) < Pos(resumed, KClientCcs) + 4 ==>
              k in {KClientCcs, KNextProto, KChannelId, KClientFinished}
  {
  }

  lemma PosInScript(cfg: Config, k: Kind)
    ensures k in Script(cfg) ==> Pos(cfg.neg.resumed, k) < |Script(cfg)| && Script(cfg)[Pos(cfg.neg.resumed, k)] == k
    ensures k !in Script(cfg) ==> Pos(cfg.neg.resumed, k) == NOWHERE
  {
    assert |FULL| == 17 && |RESUMED| == 9;
    if cfg.neg.resumed {
      var p := Pos(true, k);
      if p < 9 {
        assert RESUMED[p] == k;
      }
    } else {
      assert FULL[Pos(false, k)] == k;
    }
  }

  /** The entries belong between two places, are in order without a repetition, and each is from the right side. */
  predicate Orderly(client: bool, resumed: bool, log: seq<Entry>, lo: nat, hi: nat) {
    && (forall i :: 0 <= i < |log| ==>
          && lo <= Pos(resumed, KindOf(client, log[i])) < hi
          && log[i].sent == (FromClient(KindOf(client, log[i])) == client))
    && (forall i, j :: 0 <= i < j < |log| ==> Pos(resumed, KindOf(client, log[i])) < Pos(resumed, KindOf(client, log[j])))
  }

  /** Before the ServerHello it does not matter which order is to come. */
  lemma OrderlyStart(client: bool, log: seq<Entry>, resumed: bool)
    requires Orderly(client, false, log, 0, 1)
    ensures Orderly(client, resumed, log, 0, 1)
  {
    forall i | 0 <= i < |log|
      ensures KindOf(client, log[i]) == KClientHello
    {
      assert Pos(false, KindOf(client, log[i])) == 0;
    }
  }

  predicate Has(client: bool, log: seq<Entry>, k: Kind) {
    exists i :: 0 <= i < |log| && KindOf(client, log[i]) == k
  }

  lemma HasConcat(client: bool, a: seq<Entry>, b: seq<Entry>, k: Kind)
    ensures Has(client, a + b, k) <==> Has(client, a, k) || Has(client, b, k)
  {
    hide KindOf;
    if Has(client, a, k) {
      var i :| 0 <= i < |a| && KindOf(client, a[i]) == k;
      assert (a + b)[i] == a[i];
    }
    if Has(client, b, k) {
      var i :| 0 <= i < |b| && KindOf(client, b[i]) == k;
      assert (a + b)[|a| + i] == b[i];
    }
  }

  lemma HasOne(client: bool, e: Entry)
    ensures forall k :: Has(client, [e], k) <==> k == KindOf(client, e)
  {
    hide KindOf;
    assert [e][0] == e;
  }

  /**
   What each message has to be, given what was negotiated. A Finished is the right MAC of all messages before it, a
   signature is over them, the secret is derived from them or is the session's, and the server shows a certificate.
   What the peer may choose is left to it.
   */
  predicate Proves(cr: Crypto, client: bool, cfg: Config, secret: nat, before: Transcript, e: Entry) {
    match KindOf(client, e)
    case KServerHello => e.item == Item.Handshake(ServerHello(cfg.neg)) && (cfg.neg.resumed ==> secret == cr.sessionSecret)
    case KServerCert => e.item == Item.Handshake(Certificate(true))
    case KClientCert => e.sent ==> e.item == Item.Handshake(Certificate(cfg.clientCert))
    case KClientKey => secret == cr.derive(before + [ClientKeyExchange])
    case KCertVerify =>
      if e.sent then e.item == Item.Handshake(CertificateVerify(cr.sign(before)))
      else e.item.Handshake? && e.item.m.CertificateVerify? && cr.check(before, e.item.m.sig)
    case KChannelId =>
      if e.sent then e.item == Item.Handshake(ChannelId(cr.signId(before)))
      else e.item.Handshake? && e.item.m.ChannelId? && cr.checkId(before, e.item.m.proof)
    case KTicket => e.sent ==> e.item == Item.Handshake(NewSessionTicket(cfg.emptyTicket))
    case KServerFinished => e.item == Item.Handshake(Finished(cr.mac(secret, before, true)))
    case KClientFinished => e.item == Item.Handshake(Finished(cr.mac(secret, before, false)))
    case _ => true
  }

  predicate Proven(cr: Crypto, client: bool, cfg: Config, secret: nat, said: Transcript, log: seq<Entry>) {
    forall i :: 0 <= i < |log| ==> Proves(cr, client, cfg, secret, said + Messages(log[..i]), log[i])
  }

  /** A stretch of the log between two places: in order, from the right side, and with right proofs. */
  predicate Proper(cr: Crypto, client: bool, cfg: Config, secret: nat, said: Transcript, log: seq<Entry>, lo: nat, hi: nat) {
    Orderly(client, cfg.neg.resumed, log, lo, hi) && Proven(cr, client, cfg, secret, said, log)
  }

  lemma OrderlyConcat(client: bool, resumed: bool, a: seq<Entry>, b: seq<Entry>, lo: nat, mid: nat, hi: nat)
    requires Orderly(client, resumed, a, lo, mid) && Orderly(client, resumed, b, mid, hi) && lo <= mid <= hi
    ensures Orderly(client, resumed, a + b, lo, hi)
  {
    hide Pos, KindOf, FromClient;
  }

  lemma ProvenAt(cr: Crypto, client: bool, cfg: Config, secret: nat, said: Transcript, a: seq<Entry>, b: seq<Entry>, i: nat)
    requires Proven(cr, client, cfg, secret, said, a) && Proven(cr, client, cfg, secret, said + Messages(a), b) && i < |a + b|
    ensures Proves(cr, client, cfg, secret, said + Messages((a + b)[..i]), (a + b)[i])
  {
    hide Proves, Messages;
    if i < |a| {
      assert (a + b)[..i] == a[..i] && (a + b)[i] == a[i];
    } else {
      var j := i - |a|;
      assert (a + b)[..i] == a + b[..j] && (a + b)[i] == b[j];
      MessagesConcat(a, b[..j]);
      assert said + Messages(a) + Messages(b[..j]) == said + Messages((a + b)[..i]);
    }
  }

  lemma ProvenConcat(cr: Crypto, client: bool, cfg: Config, secret: nat, said: Transcript, a: seq<Entry>, b: seq<Entry>)
    requires Proven(cr, client, cfg, secret, said, a) && Proven(cr, client, cfg, secret, said + Messages(a), b)
    ensures Proven(cr, client, cfg, secret, said, a + b)
  {
    forall i | 0 <= i < |a + b|
      ensures Proves(cr, client, cfg, secret, said + Messages((a + b)[..i]), (a + b)[i])
    {
      hide Proves, Messages, Proven;
      ProvenAt(cr, client, cfg, secret, said, a, b, i);
    }
  }

  lemma ProperConcat(cr: Crypto, client: bool, cfg: Config, secret: nat, said: Transcript, a: seq<Entry>, b: seq<Entry>,
                     lo: nat, mid: nat, hi: nat)
    requires Proper(cr, client, cfg, secret, said, a, lo, mid) && lo <= mid <= hi
    requires Proper(cr, client, cfg, secret, said + Messages(a), b, mid, hi)
    ensures Proper(cr, client, cfg, secret, said, a + b, lo, hi)
  {
    hide Orderly, Proven, Messages;
    OrderlyConcat(client, cfg.neg.resumed, a, b, lo, mid, hi);
    ProvenConcat(cr, client, cfg, secret, said, a, b);
  }

  lemma ProperOne(cr: Crypto, client: bool, cfg: Config, secret: nat, said: Transcript, e: Entry, lo: nat, hi: nat)
    requires lo <= Pos(cfg.neg.resumed, KindOf(client, e)) < hi && e.sent == (FromClient(KindOf(client, e)) == client)
    requires Proves(cr, client, cfg, secret, said, e)
    ensures Proper(cr, client, cfg, secret, said, [e], lo, hi)
  {
    hide Pos, KindOf, FromClient, Proves;
    assert [e][..0] == [] && said + Messages([]) == said;
  }

  /** What is sent if a condition holds. */
  function Maybe(b: bool, item: Item): seq<Item> {
    if b then [item] else []
  }

  lemma ProperSent(cr: Crypto, client: bool, cfg: Config, secret: nat, said: Transcript, items: seq<Item>,
                   b: bool, item: Item, lo: nat, mid: nat, hi: nat)
    requires Proper(cr, client, cfg, secret, said, Spoken(items), lo, mid) && lo <= mid <= hi
    requires b ==> mid <= Pos(cfg.neg.resumed, KindOf(client, Entry(true, item))) < hi
    requires b ==> FromClient(KindOf(client, Entry(true, item))) == client
    requires b ==> Proves(cr, client, cfg, secret, said + Messages(Spoken(items)), Entry(true, item))
    ensures Proper(cr, client, cfg, secret, said, Spoken(items + Maybe(b, item)), lo, hi)
  {
    hide Pos, KindOf, FromClient, Proves, Messages, Proper;
    var said' := said + Messages(Spoken(items));
    assert Spoken(items + Maybe(b, item)) == Spoken(items) + Spoken(Maybe(b, item));
    assert Spoken(Maybe(b, item)) == if b then [Entry(true, item)] else [];
    if b {
      ProperOne(cr, client, cfg, secret, said', Entry(true, item), mid, hi);
    } else {
      ProperNone(cr, client, cfg, secret, said', mid, hi);
    }
    ProperConcat(cr, client, cfg, secret, said, Spoken(items), Spoken(Maybe(b, item)), lo, mid, hi);
  }

  lemma HasSent(client: bool, items: seq<Item>, b: bool, item: Item, k: Kind)
    ensures Has(client, Spoken(items + Maybe(b, item)), k) <==>
              Has(client, Spoken(items), k) || (b && KindOf(client, Entry(true, item)) == k)
  {
    hide Has, KindOf;
    assert Spoken(items + Maybe(b, item)) == Spoken(items) + Spoken(Maybe(b, item));
    assert Spoken(Maybe(b, item)) == if b then [Entry(true, item)] else [];
    HasOne(client, Entry(true, item));
    HasNone(client, k);
    HasConcat(client, Spoken(items), Spoken(Maybe(b, item)), k);
  }

  lemma HasNone(client: bool, k: Kind)
    ensures !Has(client, [], k) && Spoken([]) == []
  {
  }

  lemma ProperNone(cr: Crypto, client: bool, cfg: Config, secret: nat, said: Transcript, lo: nat, hi: nat)
    ensures Proper(cr, client, cfg, secret, said, [], lo, hi)
  {
  }

  /** Up to this place nothing depends on the secret. */
  predicate Free(resumed: bool, hi: nat) {
    hi <= Pos(resumed, if resumed then KServerHello else KClientKey)
  }

  lemma ProperSecret(cr: Crypto, client: bool, cfg: Config, secret: nat, secret': nat, said: Transcript, log: seq<Entry>,
                     lo: nat, hi: nat)
    requires Proper(cr, client, cfg, secret, said, log, lo, hi) && Free(cfg.neg.resumed, hi)
    ensures Proper(cr, client, cfg, secret', said, log, lo, hi)
  {
    hide FromClient, Messages;
    forall i | 0 <= i < |log|
      ensures Proves(cr, client, cfg, secret', said + Messages(log[..i]), log[i])
    {
      assert Pos(cfg.neg.resumed, KindOf(client, log[i])) < hi;
    }
  }

  /** Before the ServerHello nothing depends on what will be negotiated either. */
  lemma ProperStart(cr: Crypto, client: bool, cfg: Config, cfg': Config, secret: nat, secret': nat, said: Transcript,
                    log: seq<Entry>)
    requires Proper(cr, client, cfg, secret, said, log, 0, 1) && !cfg.neg.resumed
    ensures Proper(cr, client, cfg', secret', said, log, 0, 1)
    ensures forall k :: Has(client, log, k) ==> k == KClientHello
  {
    hide FromClient, Messages;
    OrderlyStart(client, log, cfg'.neg.resumed);
    forall i | 0 <= i < |log|
      ensures KindOf(client, log[i]) == KClientHello
    {
      assert Pos(false, KindOf(client, log[i])) == 0;
    }
  }

  lemma FinishedIs(cr: Crypto, client: bool, cfg: Config, secret: nat, before: Transcript, e: Entry, server: bool)
    requires Proves(cr, client, cfg, secret, before, e) && KindOf(client, e) == if server then KServerFinished else KClientFinished
    ensures e == Entry(server != client, Item.Handshake(Finished(cr.mac(secret, before, server))))
  {
  }

  /** A Finished that is there, with the ChangeCipherSpec before it that comes before it in the order. */
  lemma BehindCcs(cr: Crypto, client: bool, cfg: Config, secret: nat, log: seq<Entry>, server: bool, hi: nat)
    requires Proper(cr, client, cfg, secret, [], log, 0, hi)
    requires Has(client, log, if server then KServerCcs else KClientCcs)
    requires Has(client, log, if server then KServerFinished else KClientFinished)
    ensures exists i, j :: 0 <= i < j < |log|
              && log[i] == Entry(server != client, ChangeCipherSpec)
              && log[j] == Entry(server != client, Item.Handshake(Finished(cr.mac(secret, Messages(log[..j]), server))))
  {
    hide Messages, Proves;
    var ccs, fin := if server then KServerCcs else KClientCcs, if server then KServerFinished else KClientFinished;
    var i :| 0 <= i < |log| && KindOf(client, log[i]) == ccs;
    var j :| 0 <= j < |log| && KindOf(client, log[j]) == fin;
    assert Pos(cfg.neg.resumed, ccs) < Pos(cfg.neg.resumed, fin);
    assert i < j;
    assert [] + Messages(log[..j]) == Messages(log[..j]);
    assert Proves(cr, client, cfg, secret, Messages(log[..j]), log[j]);
    FinishedIs(cr, client, cfg, secret, Messages(log[..j]), log[j], server);
  }

  /** The secret is the session's, or derived from everything up to the ClientKeyExchange. */
  predicate Keyed(cr: Crypto, client: bool, resumed: bool, secret: nat, log: seq<Entry>) {
    if resumed then secret == cr.sessionSecret
    else exists i :: 0 <= i < |log| && log[i] == Entry(client, Item.Handshake(ClientKeyExchange))
                  && secret == cr.derive(Messages(log[..i]) + [ClientKeyExchange])
  }

  lemma KeyThere(cr: Crypto, client: bool, cfg: Config, secret: nat, log: seq<Entry>, hi: nat)
    requires Proper(cr, client, cfg, secret, [], log, 0, hi)
    requires Has(client, log, if cfg.neg.resumed then KServerHello else KClientKey)
    ensures Keyed(cr, client, cfg.neg.resumed, secret, log)
  {
    hide Messages, Pos;
    var i :| 0 <= i < |log| && KindOf(client, log[i]) == if cfg.neg.resumed then KServerHello else KClientKey;
    assert [] + Messages(log[..i]) == Messages(log[..i]);
    assert Proves(cr, client, cfg, secret, Messages(log[..i]), log[i]);
  }

  /** What a step took in and said, from what it left unread and what it added to the flight. */
  function News(out: seq<Item>, inp: seq<Item>, out': seq<Item>, inp': seq<Item>): seq<Entry> {
    (if |inp'| < |inp| then [Entry(false, inp[0])] else []) + (if |out| <= |out'| then Spoken(out'[|out|..]) else [])
  }

  function Spoken(items: seq<Item>): seq<Entry> {
    seq(|items|, i requires 0 <= i < |items| => Entry(true, items[i]))
  }

  /** A step that reads nothing and adds `more` to the flight. */
  lemma NewsSpoken(out: seq<Item>, inp: seq<Item>, more: seq<Item>)
    ensures News(out, inp, out + more, inp) == Spoken(more)
  {
    assert (out + more)[|out|..] == more;
  }

  /** A step that takes the front of the input, and one that does nothing. */
  lemma NewsRead(out: seq<Item>, inp: seq<Item>)
    ensures News(out, inp, out, inp) == []
    ensures inp != [] ==> News(out, inp, out, inp[1..]) == [Entry(false, inp[0])]
  {
  }

  /** Hashing a message keeps the transcript right, and so does freeing the buffer once there is a hash. */
  lemma UpdateAgrees(h: Hashes, said: Transcript, m: Message)
    requires Agrees(h, said)
    ensures Agrees(Update(h, m), said + [m]) && Update(h, m).hash.Some? == h.hash.Some?
    ensures Update(h, m).buffer.Some? == h.buffer.Some?
    ensures FreeBuffer(h).buffer.None? && Update(FreeBuffer(h), m).buffer.None? && FreeBuffer(Update(h, m)).buffer.None?
    ensures h.buffer.Some? ==> h.buffer.value == said
    ensures h.hash.Some? ==> Hashed(h) == said && Agrees(FreeBuffer(h), said) && FreeBuffer(h).hash.Some?
    ensures h.hash.Some? ==> Agrees(FreeBuffer(Update(h, m)), said + [m]) && FreeBuffer(Update(h, m)).hash.Some?
  {
  }

  function Say(h: Hashes, item: Item): Hashes {
    match item case Handshake(m) => Update(h, m) case ChangeCipherSpec => h
  }

  function SayAll(h: Hashes, items: seq<Item>): Hashes {
    if items == [] then h else Say(SayAll(h, items[..|items| - 1]), items[|items| - 1])
  }

  lemma SayOne(h: Hashes, item: Item)
    ensures SayAll(h, [item]) == Say(h, item)
  {
    assert [item][..0] == [];
  }

  lemma SayNone(h: Hashes)
    ensures SayAll(h, []) == h
  {
  }

  lemma SayMaybe(h: Hashes, items: seq<Item>, b: bool, item: Item)
    ensures SayAll(h, items + Maybe(b, item)) == if b then Say(SayAll(h, items), item) else SayAll(h, items)
  {
    if b {
      assert (items + [item])[..|items|] == items;
    } else {
      assert items + [] == items;
    }
  }

  lemma {:induction false} SayAllAgrees(h: Hashes, items: seq<Item>, said: Transcript)
    requires Agrees(h, said)
    ensures var h' := SayAll(h, items);
            && Agrees(h', said + Messages(Spoken(items)))
            && h'.hash.Some? == h.hash.Some? && h'.buffer.Some? == h.buffer.Some?
            && (h.hash.Some? ==> Hashed(h') == said + Messages(Spoken(items)))
    decreases |items|
  {
    if items == [] {
      assert said + [] == said;
    } else {
      var front, item := items[..|items| - 1], items[|items| - 1];
      SayAllAgrees(h, front, said);
      assert Spoken(items) == Spoken(front) + [Entry(true, item)];
      MessagesSnoc(Spoken(front), Entry(true, item));
    }
  }

  /** The transcript is what was said, in the buffer as long as there is one and in the hash since there is one. */
  predicate Agrees(h: Hashes, said: Transcript) {
    && (h.buffer.Some? ==> h.buffer.value == said)
    && (h.hash.Some? ==> h.hash.value == said)
    && (h.hash.Some? || h.buffer.Some?)
  }
}
