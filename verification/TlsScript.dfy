/**
 The TLS 1.2 handshake messages, and the order in which a client and a server that agree on the negotiated
 choices exchange them (section 7.3 of RFC 5246, section 3.3 of RFC 5077).
 */
module TlsScript {
  import opened Prelude

  /** What the ServerHello settles. */
  datatype Negotiated = Negotiated(resumed: bool, certAuth: bool, requiresSke: bool, status: bool,
                                   ticket: bool, npn: bool, channelId: bool)

  /** All choices: the server's further ones, and whether the client has a certificate. */
  datatype Config = Config(neg: Negotiated, certRequest: bool, pskHint: bool, emptyTicket: bool, clientCert: bool)

  /** A client certificate is only asked for in a full handshake with a certificate-based cipher. */
  predicate ValidConfig(cfg: Config) {
    cfg.certRequest ==> cfg.neg.certAuth && !cfg.neg.resumed
  }

  datatype Message =
    | ClientHello
    | ServerHello(neg: Negotiated)
    | Certificate(present: bool)
    | CertificateStatus
    | ServerKeyExchange
    | CertificateRequest
    | ServerHelloDone
    | ClientKeyExchange
    | CertificateVerify(sig: nat)
    | NextProto
    | ChannelId(proof: nat)
    | NewSessionTicket(empty: bool)
    | Finished(mac: nat)

  /** What a record carries. */
  datatype Item = Handshake(m: Message) | ChangeCipherSpec

  type Transcript = seq<Message>

  /** Hash, MAC, key derivation and signatures as functions of the transcript. */
  datatype Crypto = Crypto(
    mac: (nat, Transcript, bool) -> nat,
    derive: Transcript -> nat,
    sessionSecret: nat,
    sign: Transcript -> nat,
    check: (Transcript, nat) -> bool,
    signId: Transcript -> nat,
    checkId: (Transcript, nat) -> bool)

  /** A signature checks against the transcript that was signed. */
  ghost predicate SignaturesOk(cr: Crypto) {
    && (forall t: Transcript :: cr.check(t, cr.sign(t)))
    && (forall t: Transcript :: cr.checkId(t, cr.signId(t)))
  }

  // ---------------------------------------------------------------- the script

  datatype Kind =
    | KClientHello | KServerHello | KServerCert | KStatus | KServerKey | KCertRequest | KHelloDone
    | KClientCert | KClientKey | KCertVerify | KClientCcs | KNextProto | KChannelId | KClientFinished
    | KTicket | KServerCcs | KServerFinished

  predicate FromClient(k: Kind) {
    k in {KClientHello, KClientCert, KClientKey, KCertVerify, KClientCcs, KNextProto, KChannelId, KClientFinished}
  }

  predicate NeedsServerKey(cfg: Config) {
    cfg.neg.requiresSke || (!cfg.neg.certAuth && cfg.pskHint)
  }

  /** Whether the choices include the message. */
  predicate Present(cfg: Config, k: Kind) {
    match k
    case KServerCert => cfg.neg.certAuth
    case KStatus => cfg.neg.certAuth && cfg.neg.status
    case KServerKey => NeedsServerKey(cfg)
    case KCertRequest | KClientCert => cfg.certRequest
    case KCertVerify => cfg.certRequest && cfg.clientCert
    case KNextProto => cfg.neg.npn
    case KChannelId => cfg.neg.channelId
    case KTicket => cfg.neg.ticket
    case _ => true
  }

  const FULL: seq<Kind> := [
    KClientHello, KServerHello, KServerCert, KStatus, KServerKey, KCertRequest, KHelloDone,
    KClientCert, KClientKey, KCertVerify, KClientCcs, KNextProto, KChannelId, KClientFinished,
    KTicket, KServerCcs, KServerFinished]

  const RESUMED: seq<Kind> := [
    KClientHello, KServerHello, KTicket, KServerCcs, KServerFinished,
    KClientCcs, KNextProto, KChannelId, KClientFinished]

  function Script(cfg: Config): seq<Kind> {
    if cfg.neg.resumed then RESUMED else FULL
  }

  /** The place behind the ClientKeyExchange, where the master secret is derived. */
  const KEYED := 9

  /** The transcript when the first `i` places of the script are done. */
  function Trans(cr: Crypto, cfg: Config, i: nat): Transcript
    requires i <= |Script(cfg)|
    decreases i, 0
  {
    if i == 0 then []
    else
      var t := Trans(cr, cfg, i - 1);
      var k := Script(cfg)[i - 1];
      if !Present(cfg, k) then t
      else match Content(cr, cfg, i - 1)
        case Handshake(m) => t + [m]
        case ChangeCipherSpec => t
  }

  lemma {:induction false} TransGrows(cr: Crypto, cfg: Config, i: nat, j: nat)
    requires i <= j <= |Script(cfg)|
    ensures Trans(cr, cfg, i) <= Trans(cr, cfg, j)
    decreases j
  {
    hide Script, Content, Present;
    if i < j {
      TransGrows(cr, cfg, i, j - 1);
    }
  }

  function Secret(cr: Crypto, cfg: Config, i: nat): nat
    requires i <= |Script(cfg)|
    decreases i, 0
  {
    if cfg.neg.resumed then cr.sessionSecret else if i > KEYED then cr.derive(Trans(cr, cfg, KEYED)) else 0
  }

  /** The item at place `i`, with its checks over the transcript so far. */
  function Content(cr: Crypto, cfg: Config, i: nat): Item
    requires i < |Script(cfg)|
    decreases i, 1
  {
    match Script(cfg)[i]
    case KClientHello => Handshake(ClientHello)
    case KServerHello => Handshake(ServerHello(cfg.neg))
    case KServerCert => Handshake(Certificate(true))
    case KStatus => Handshake(CertificateStatus)
    case KServerKey => Handshake(ServerKeyExchange)
    case KCertRequest => Handshake(CertificateRequest)
    case KHelloDone => Handshake(ServerHelloDone)
    case KClientCert => Handshake(Certificate(cfg.clientCert))
    case KClientKey => Handshake(ClientKeyExchange)
    case KCertVerify => Handshake(CertificateVerify(cr.sign(Trans(cr, cfg, i))))
    case KClientCcs => ChangeCipherSpec
    case KNextProto => Handshake(NextProto)
    case KChannelId => Handshake(ChannelId(cr.signId(Trans(cr, cfg, i))))
    case KClientFinished => Handshake(Finished(cr.mac(Secret(cr, cfg, i), Trans(cr, cfg, i), false)))
    case KTicket => Handshake(NewSessionTicket(cfg.emptyTicket))
    case KServerCcs => ChangeCipherSpec
    case KServerFinished => Handshake(Finished(cr.mac(Secret(cr, cfg, i), Trans(cr, cfg, i), true)))
  }

  /** The items of the places from `i` up to `j`. */
  function Items(cr: Crypto, cfg: Config, i: nat, j: nat): seq<Item>
    requires i <= j <= |Script(cfg)|
    decreases j - i
  {
    if i == j then []
    else (if Present(cfg, Script(cfg)[i]) then [Content(cr, cfg, i)] else []) + Items(cr, cfg, i + 1, j)
  }

  lemma {:induction false} ItemsSnoc(cr: Crypto, cfg: Config, i: nat, j: nat)
    requires i <= j < |Script(cfg)|
    ensures Items(cr, cfg, i, j + 1)
         == Items(cr, cfg, i, j) + (if Present(cfg, Script(cfg)[j]) then [Content(cr, cfg, j)] else [])
    decreases j - i
  {
    hide Content, Present, Script;
    if i < j {
      ItemsSnoc(cr, cfg, i + 1, j);
    }
  }

  // ---------------------------------------------------------------- two places in the script

  /** Every item between the two places is sent by the client, or by the server. */
  predicate AllFrom(cfg: Config, client: bool, i: nat, j: nat)
    requires i <= j <= |Script(cfg)|
  {
    forall k :: i <= k < j && Present(cfg, Script(cfg)[k]) ==> FromClient(Script(cfg)[k]) == client
  }

  /**
   One side, the client if `me`, is at place `i` and the other at place `j`. Whoever is ahead has sent what
   lies between them, and it is on its way: behind it `out`, not yet written, and before that `wire`.
   */
  predicate Wire(cr: Crypto, cfg: Config, me: bool, i: nat, j: nat,
                 wire: seq<Item>, out: seq<Item>, wire': seq<Item>, out': seq<Item>) {
    && i <= |Script(cfg)| && j <= |Script(cfg)|
    && (i >= j ==> AllFrom(cfg, me, j, i) && wire + out == Items(cr, cfg, j, i))
    && (i <= j ==> AllFrom(cfg, !me, i, j) && wire' + out' == Items(cr, cfg, i, j))
    && (i > j ==> wire' == [] && out' == [])
    && (i < j ==> wire == [] && out == [])
  }

  lemma WireFlip(cr: Crypto, cfg: Config, me: bool, i: nat, j: nat, w: seq<Item>, o: seq<Item>, w': seq<Item>, o': seq<Item>)
    requires Wire(cr, cfg, me, i, j, w, o, w', o')
    ensures Wire(cr, cfg, !me, j, i, w', o', w, o)
  {
    hide Script, Items, AllFrom;
  }

  /** An absent message is passed over. */
  lemma WireSkip(cr: Crypto, cfg: Config, me: bool, i: nat, j: nat, w: seq<Item>, o: seq<Item>, w': seq<Item>, o': seq<Item>)
    requires Wire(cr, cfg, me, i, j, w, o, w', o') && i < |Script(cfg)| && !Present(cfg, Script(cfg)[i])
    ensures Wire(cr, cfg, me, i + 1, j, w, o, w', o')
  {
    hide Script, Content, Present;
    if i >= j {
      ItemsSnoc(cr, cfg, j, i);
    }
  }

  /** Sending what comes next. */
  lemma WireSend(cr: Crypto, cfg: Config, me: bool, i: nat, j: nat, w: seq<Item>, o: seq<Item>, w': seq<Item>, o': seq<Item>)
    requires Wire(cr, cfg, me, i, j, w, o, w', o') && i < |Script(cfg)| && Present(cfg, Script(cfg)[i])
    requires FromClient(Script(cfg)[i]) == me
    ensures Wire(cr, cfg, me, i + 1, j, w, o + [Content(cr, cfg, i)], w', o')
  {
    hide Script, Content, Present, FromClient;
    assert i >= j;
    ItemsSnoc(cr, cfg, j, i);
    assert w + (o + [Content(cr, cfg, i)]) == w + o + [Content(cr, cfg, i)];
    assert i == j ==> |w' + o'| == 0;
  }

  /** What is there to be received is what comes next. */
  lemma WireReceive(cr: Crypto, cfg: Config, me: bool, i: nat, j: nat, w: seq<Item>, o: seq<Item>, w': seq<Item>, o': seq<Item>)
    requires Wire(cr, cfg, me, i, j, w, o, w', o') && w' != [] && i < |Script(cfg)| && Present(cfg, Script(cfg)[i])
    ensures FromClient(Script(cfg)[i]) != me && w'[0] == Content(cr, cfg, i)
    ensures Wire(cr, cfg, me, i + 1, j, w, o, w'[1..], o')
  {
    hide Script, Content, Present, FromClient;
    assert (w' + o')[0] == w'[0];
    assert i < j;
    assert (w' + o')[1..] == w'[1..] + o';
    assert Items(cr, cfg, i, j)[1..] == Items(cr, cfg, i + 1, j);
    if i + 1 == j {
      assert Items(cr, cfg, j, i + 1) == [];
    }
  }

  /** Writing an item out. */
  lemma WireFlush(cr: Crypto, cfg: Config, me: bool, i: nat, j: nat, w: seq<Item>, o: seq<Item>, w': seq<Item>, o': seq<Item>)
    requires Wire(cr, cfg, me, i, j, w, o, w', o') && o != []
    ensures Wire(cr, cfg, me, i, j, w + [o[0]], o[1..], w', o')
  {
    hide Script, Items, AllFrom;
    assert w + [o[0]] + o[1..] == w + o;
  }

  // ---------------------------------------------------------------- one side's place and transcript

  /** The side is at place `i`: the wire fits, and its transcript is the script's so far. */
  predicate At(cr: Crypto, cfg: Config, me: bool, i: nat, j: nat,
               w: seq<Item>, o: seq<Item>, w': seq<Item>, o': seq<Item>, t: Transcript) {
    Wire(cr, cfg, me, i, j, w, o, w', o') && t == Trans(cr, cfg, i)
  }

  function After(t: Transcript, item: Item): Transcript {
    match item case Handshake(m) => t + [m] case ChangeCipherSpec => t
  }

  lemma SkipAt(cr: Crypto, cfg: Config, me: bool, i: nat, j: nat,
               w: seq<Item>, o: seq<Item>, w': seq<Item>, o': seq<Item>, t: Transcript)
    requires At(cr, cfg, me, i, j, w, o, w', o', t) && i < |Script(cfg)| && !Present(cfg, Script(cfg)[i])
    ensures At(cr, cfg, me, i + 1, j, w, o, w', o', t)
  {
    hide Script, Content, Present, Wire;
    WireSkip(cr, cfg, me, i, j, w, o, w', o');
  }

  lemma SendAt(cr: Crypto, cfg: Config, me: bool, i: nat, j: nat,
               w: seq<Item>, o: seq<Item>, w': seq<Item>, o': seq<Item>, t: Transcript)
    requires At(cr, cfg, me, i, j, w, o, w', o', t) && i < |Script(cfg)| && Present(cfg, Script(cfg)[i])
    requires FromClient(Script(cfg)[i]) == me
    ensures At(cr, cfg, me, i + 1, j, w, o + [Content(cr, cfg, i)], w', o', After(t, Content(cr, cfg, i)))
  {
    hide Script, Content, Present, Wire, FromClient;
    WireSend(cr, cfg, me, i, j, w, o, w', o');
  }

  lemma ReceiveAt(cr: Crypto, cfg: Config, me: bool, i: nat, j: nat,
                  w: seq<Item>, o: seq<Item>, w': seq<Item>, o': seq<Item>, t: Transcript)
    requires At(cr, cfg, me, i, j, w, o, w', o', t) && w' != [] && i < |Script(cfg)| && Present(cfg, Script(cfg)[i])
    ensures w'[0] == Content(cr, cfg, i)
    ensures At(cr, cfg, me, i + 1, j, w, o, w'[1..], o', After(t, Content(cr, cfg, i)))
  {
    hide Script, Content, Present, Wire, FromClient;
    WireReceive(cr, cfg, me, i, j, w, o, w', o');
  }

  /** Up to a place that is always present, with no ChangeCipherSpec on the way, what comes next is a message. */
  lemma {:induction false} NextIsMessage(cr: Crypto, cfg: Config, me: bool, i: nat, e: nat, j: nat,
                                         w: seq<Item>, o: seq<Item>, w': seq<Item>, o': seq<Item>, t: Transcript)
    requires At(cr, cfg, me, i, j, w, o, w', o', t) && w' != [] && i <= e < |Script(cfg)| && Present(cfg, Script(cfg)[e])
    requires forall k :: i <= k <= e ==> Script(cfg)[k] != KClientCcs && Script(cfg)[k] != KServerCcs
    ensures w'[0].Handshake?
    decreases e - i
  {
    hide Present, Wire, Trans, Secret, Script;
    if Present(cfg, Script(cfg)[i]) {
      ReceiveAt(cr, cfg, me, i, j, w, o, w', o', t);
    } else {
      SkipAt(cr, cfg, me, i, j, w, o, w', o', t);
      NextIsMessage(cr, cfg, me, i + 1, e, j, w, o, w', o', t);
    }
  }

  /** Who sends the first message at or after place `i`. */
  function FirstFrom(cfg: Config, i: nat): Option<bool>
    requires i <= |Script(cfg)|
    decreases |Script(cfg)| - i
  {
    if i == |Script(cfg)| then None
    else if Present(cfg, Script(cfg)[i]) then Some(FromClient(Script(cfg)[i]))
    else FirstFrom(cfg, i + 1)
  }

  lemma {:induction false} FirstFromAnchor(cfg: Config, me: bool, i: nat, e: nat)
    requires i <= e < |Script(cfg)| && Present(cfg, Script(cfg)[e])
    requires forall k :: i <= k <= e ==> FromClient(Script(cfg)[k]) == me
    ensures FirstFrom(cfg, i) == Some(me)
    decreases e - i
  {
    hide Present, Script, FromClient;
    if !Present(cfg, Script(cfg)[i]) {
      FirstFromAnchor(cfg, me, i + 1, e);
    }
  }

  /** With nothing between two places, the same message comes first at both. */
  lemma {:induction false} FirstFromSame(cr: Crypto, cfg: Config, i: nat, j: nat)
    requires i <= j <= |Script(cfg)| && Items(cr, cfg, i, j) == []
    ensures FirstFrom(cfg, i) == FirstFrom(cfg, j)
    decreases j - i
  {
    hide Present, Script, FromClient, Content;
    if i < j {
      FirstFromSame(cr, cfg, i + 1, j);
    }
  }
}
