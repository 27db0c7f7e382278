/** Every step of the server keeps it in its place in the script, whatever the client is doing. */
module TlsServerSteps {
  import opened Prelude
  import opened TlsScript
  import opened TlsEndpoint
  import opened TlsServer

  /** The place in the script that belongs to each state. */
  function Place(cfg: Config, st: State, wait: Wait): nat {
    match st
    case StartAccept | ReadClientHello | SelectCertificate | SelectParameters => 0
    case SendServerHello => 1
    case SendServerCertificate => 2
    case SendServerKeyExchange => 4
    case SendServerHelloDone => 5
    case ReadClientCertificate => 7
    case VerifyClientCertificate | ReadClientKeyExchange => 8
    case ReadClientCertificateVerify => 9
    case ReadChangeCipherSpec => if cfg.neg.resumed then 5 else 10
    case ProcessChangeCipherSpec => (if cfg.neg.resumed then 5 else 10) + (if wait == ReadCcs then 0 else 1)
    case ReadNextProto => if cfg.neg.resumed then 6 else 11
    case ReadChannelId => if cfg.neg.resumed then 7 else 12
    case ReadClientFinished => if cfg.neg.resumed then 8 else 13
    case SendServerFinished => if cfg.neg.resumed then 2 else 14
    case FinishServerHandshake | Done => if cfg.neg.resumed then 9 else 17
  }

  predicate BeforeHash(st: State) {
    st.StartAccept? || st.ReadClientHello? || st.SelectCertificate? || st.SelectParameters?
  }

  predicate BeforeClientCert(st: State) {
    || st.SendServerCertificate? || st.SendServerKeyExchange? || st.SendServerHelloDone? || st.ReadClientCertificate?
  }

  predicate AfterClientCert(st: State) {
    st.VerifyClientCertificate? || st.ReadClientKeyExchange? || st.ReadClientCertificateVerify?
  }

  /** The states in which a signature over the transcript may yet have to be checked. */
  predicate NeedsBuffer(cfg: Config, st: State) {
    || BeforeHash(st)
    || ((st.SendServerHello? || BeforeClientCert(st)) && cfg.certRequest)
    || (AfterClientCert(st) && cfg.certRequest && cfg.clientCert)
  }

  predicate Facts(cr: Crypto, cfg: Config, s: Server) {
    && ValidConfig(cfg)
    && Place(cfg, s.st, s.wait) <= |Script(cfg)|
    && (BeforeHash(s.st) <==> s.h.hash.None?)
    && (BeforeClientCert(s.st) || AfterClientCert(s.st) ==> !cfg.neg.resumed)
    && (NeedsBuffer(cfg, s.st) ==> s.h.buffer == Some(Said(s.h)))
    && (!BeforeHash(s.st) ==> s.certRequest == cfg.certRequest)
    && (s.st.SendServerKeyExchange? ==> s.keyParams == NeedsServerKey(cfg))
    && (BeforeHash(s.st) || s.st.SendServerHello? || BeforeClientCert(s.st) ==> !s.peerKey)
    && (AfterClientCert(s.st) ==> s.peerKey == (cfg.certRequest && cfg.clientCert))
    && (!BeforeHash(s.st) && cfg.neg.resumed ==> s.secret == cr.sessionSecret)
    && (!cfg.neg.resumed && Place(cfg, s.st, s.wait) >= KEYED ==> s.secret == cr.derive(Trans(cr, cfg, KEYED)))
    && Waits(s)
  }

  /** When the server waits, and that nothing is left unwritten while it reads. */
  predicate Waits(s: Server) {
    && s.wait != Failed
    && (s.wait == ReadCcs ==> s.st.ProcessChangeCipherSpec?)
    && (s.wait == Flush ==> s.st.ReadClientCertificate? || s.st.ReadChangeCipherSpec? || s.st.FinishServerHandshake?)
    && (s.wait == ReadMessage ==> Reads(s.st) && (s.st.ReadClientCertificateVerify? ==> s.peerKey))
    && (s.out != [] && s.wait != Flush ==>
          s.st.SendServerCertificate? || s.st.SendServerKeyExchange? || s.st.SendServerHelloDone? || s.st.SendServerFinished?)
  }

  /** The server's part of the invariant, with the other side at place `j`. */
  predicate Inv(cr: Crypto, cfg: Config, s: Server, j: nat, w: seq<Item>, w': seq<Item>, o': seq<Item>) {
    Facts(cr, cfg, s) && At(cr, cfg, false, Place(cfg, s.st, s.wait), j, w, s.out, w', o', Said(s.h))
  }

  // ---------------------------------------------------------------- the states

  lemma StepClientHello(cr: Crypto, cfg: Config, s: Server, j: nat, w: seq<Item>, w': seq<Item>, o': seq<Item>)
    requires Inv(cr, cfg, s, j, w, w', o') && s.wait == Ok && BeforeHash(s.st)
    ensures Inv(cr, cfg, Do(cr, cfg, s, w').0, j, w, Do(cr, cfg, s, w').1, o')
  {
    hide Wire, Trans, Secret, Moves, Rank, ServerHelloStep, ServerCertificateStep, ServerKeyExchangeStep,
      ServerHelloDoneStep, ClientCertificateStep, ClientKeyExchangeStep, CertificateVerifyStep, NextProtoStep,
      ChannelIdStep, ClientFinishedStep, ServerFinishedStep;
    if w' != [] {
      ReceiveAt(cr, cfg, false, 0, j, w, s.out, w', o', Said(s.h));
    }
  }

  lemma StepServerHello(cr: Crypto, cfg: Config, s: Server, j: nat, w: seq<Item>, w': seq<Item>, o': seq<Item>)
    requires Inv(cr, cfg, s, j, w, w', o') && s.wait == Ok && s.st == SendServerHello
    ensures Inv(cr, cfg, Do(cr, cfg, s, w').0, j, w, Do(cr, cfg, s, w').1, o')
  {
    hide Wire, Trans, Secret;
    SendAt(cr, cfg, false, 1, j, w, s.out, w', o', Said(s.h));
  }

  lemma StepServerCertificate(cr: Crypto, cfg: Config, s: Server, j: nat, w: seq<Item>, w': seq<Item>, o': seq<Item>)
    requires Inv(cr, cfg, s, j, w, w', o') && s.wait == Ok && s.st == SendServerCertificate
    ensures Inv(cr, cfg, Do(cr, cfg, s, w').0, j, w, Do(cr, cfg, s, w').1, o')
  {
    hide Wire, Trans, Secret;
    if cfg.neg.certAuth {
      SendAt(cr, cfg, false, 2, j, w, s.out, w', o', Said(s.h));
    } else {
      SkipAt(cr, cfg, false, 2, j, w, s.out, w', o', Said(s.h));
    }
    var s1 := if cfg.neg.certAuth then Send(s, Certificate(true)) else s;
    if cfg.neg.certAuth && cfg.neg.status {
      SendAt(cr, cfg, false, 3, j, w, s1.out, w', o', Said(s1.h));
    } else {
      SkipAt(cr, cfg, false, 3, j, w, s1.out, w', o', Said(s1.h));
    }
  }

  lemma StepServerKeyExchange(cr: Crypto, cfg: Config, s: Server, j: nat, w: seq<Item>, w': seq<Item>, o': seq<Item>)
    requires Inv(cr, cfg, s, j, w, w', o') && s.wait == Ok && s.st == SendServerKeyExchange
    ensures Inv(cr, cfg, Do(cr, cfg, s, w').0, j, w, Do(cr, cfg, s, w').1, o')
  {
    hide Wire, Trans, Secret, Moves, Rank, ClientHelloStep, SelectCertificateStep, SelectParametersStep,
      ServerHelloStep, ServerCertificateStep, ServerHelloDoneStep, ClientCertificateStep, ClientKeyExchangeStep,
      CertificateVerifyStep, NextProtoStep, ChannelIdStep, ClientFinishedStep, ServerFinishedStep;
    if NeedsServerKey(cfg) {
      SendAt(cr, cfg, false, 4, j, w, s.out, w', o', Said(s.h));
    } else {
      SkipAt(cr, cfg, false, 4, j, w, s.out, w', o', Said(s.h));
    }
  }

  lemma StepServerHelloDone(cr: Crypto, cfg: Config, s: Server, j: nat, w: seq<Item>, w': seq<Item>, o': seq<Item>)
    requires Inv(cr, cfg, s, j, w, w', o') && s.wait == Ok && s.st == SendServerHelloDone
    ensures Inv(cr, cfg, Do(cr, cfg, s, w').0, j, w, Do(cr, cfg, s, w').1, o')
  {
    hide Wire, Trans, Secret;
    if cfg.certRequest {
      SendAt(cr, cfg, false, 5, j, w, s.out, w', o', Said(s.h));
    } else {
      SkipAt(cr, cfg, false, 5, j, w, s.out, w', o', Said(s.h));
    }
    var s1 := if cfg.certRequest then Send(s, CertificateRequest) else s;
    SendAt(cr, cfg, false, 6, j, w, s1.out, w', o', Said(s1.h));
  }

  lemma StepClientCertificate(cr: Crypto, cfg: Config, s: Server, j: nat, w: seq<Item>, w': seq<Item>, o': seq<Item>)
    requires Inv(cr, cfg, s, j, w, w', o') && s.wait == Ok && s.st == ReadClientCertificate
    ensures Inv(cr, cfg, Do(cr, cfg, s, w').0, j, w, Do(cr, cfg, s, w').1, o')
  {
    hide Wire, Trans, Secret;
    if !cfg.certRequest {
      SkipAt(cr, cfg, false, 7, j, w, s.out, w', o', Said(s.h));
    } else if w' != [] {
      ReceiveAt(cr, cfg, false, 7, j, w, s.out, w', o', Said(s.h));
    }
  }

  lemma StepClientKeyExchange(cr: Crypto, cfg: Config, s: Server, j: nat, w: seq<Item>, w': seq<Item>, o': seq<Item>)
    requires Inv(cr, cfg, s, j, w, w', o') && s.wait == Ok && s.st == ReadClientKeyExchange
    ensures Inv(cr, cfg, Do(cr, cfg, s, w').0, j, w, Do(cr, cfg, s, w').1, o')
  {
    hide Wire, Trans, Secret;
    if w' != [] {
      ReceiveAt(cr, cfg, false, 8, j, w, s.out, w', o', Said(s.h));
    }
  }

  /** The buffer that the signature is checked against is the transcript that the client signed. */
  lemma StepCertificateVerify(cr: Crypto, cfg: Config, s: Server, j: nat, w: seq<Item>, w': seq<Item>, o': seq<Item>)
    requires Inv(cr, cfg, s, j, w, w', o') && s.wait == Ok && s.st == ReadClientCertificateVerify && SignaturesOk(cr)
    ensures Inv(cr, cfg, Do(cr, cfg, s, w').0, j, w, Do(cr, cfg, s, w').1, o')
  {
    hide Wire, Trans, Secret;
    if !(cfg.certRequest && cfg.clientCert) {
      SkipAt(cr, cfg, false, 9, j, w, s.out, w', o', Said(s.h));
    } else if w' != [] {
      ReceiveAt(cr, cfg, false, 9, j, w, s.out, w', o', Said(s.h));
    }
  }

  lemma StepInternal(cr: Crypto, cfg: Config, s: Server, j: nat, w: seq<Item>, w': seq<Item>, o': seq<Item>)
    requires Inv(cr, cfg, s, j, w, w', o') && s.wait == Ok
    requires s.st in {VerifyClientCertificate, ReadChangeCipherSpec, ProcessChangeCipherSpec, FinishServerHandshake}
    ensures Inv(cr, cfg, Do(cr, cfg, s, w').0, j, w, Do(cr, cfg, s, w').1, o')
  {
    hide At, Trans, Script, Said, ValidConfig;
    var next := Do(cr, cfg, s, w').0;
    assert Place(cfg, next.st, next.wait) == Place(cfg, s.st, s.wait);
  }

  lemma LastPlaces(cr: Crypto, cfg: Config, b: nat)
    requires b == if cfg.neg.resumed then 5 else 10
    ensures b + 4 <= |Script(cfg)|
    ensures Present(cfg, Script(cfg)[b]) && Content(cr, cfg, b) == ChangeCipherSpec
    ensures (Present(cfg, Script(cfg)[b + 1]) <==> cfg.neg.npn) && Content(cr, cfg, b + 1) == Item.Handshake(NextProto)
    ensures Present(cfg, Script(cfg)[b + 2]) <==> cfg.neg.channelId
    ensures Content(cr, cfg, b + 2) == Item.Handshake(ChannelId(cr.signId(Trans(cr, cfg, b + 2))))
    ensures Present(cfg, Script(cfg)[b + 3])
    ensures Content(cr, cfg, b + 3) == Item.Handshake(Finished(cr.mac(Secret(cr, cfg, b + 3), Trans(cr, cfg, b + 3), false)))
    ensures Secret(cr, cfg, b + 3) == if cfg.neg.resumed then cr.sessionSecret else cr.derive(Trans(cr, cfg, KEYED))
  {
    hide Trans;
  }

  lemma StepNextProto(cr: Crypto, cfg: Config, s: Server, j: nat, w: seq<Item>, w': seq<Item>, o': seq<Item>)
    requires Inv(cr, cfg, s, j, w, w', o') && s.wait == Ok && s.st == ReadNextProto
    ensures Inv(cr, cfg, Do(cr, cfg, s, w').0, j, w, Do(cr, cfg, s, w').1, o')
  {
    hide Wire, Trans, Secret, Script, Content, Present;
    var i := Place(cfg, s.st, s.wait);
    LastPlaces(cr, cfg, i - 1);
    if !cfg.neg.npn {
      SkipAt(cr, cfg, false, i, j, w, s.out, w', o', Said(s.h));
    } else if w' != [] {
      ReceiveAt(cr, cfg, false, i, j, w, s.out, w', o', Said(s.h));
    }
  }

  lemma StepChannelId(cr: Crypto, cfg: Config, s: Server, j: nat, w: seq<Item>, w': seq<Item>, o': seq<Item>)
    requires Inv(cr, cfg, s, j, w, w', o') && s.wait == Ok && s.st == ReadChannelId && SignaturesOk(cr)
    ensures Inv(cr, cfg, Do(cr, cfg, s, w').0, j, w, Do(cr, cfg, s, w').1, o')
  {
    hide Wire, Trans, Secret, Script, Content, Present;
    var i := Place(cfg, s.st, s.wait);
    LastPlaces(cr, cfg, i - 2);
    if !cfg.neg.channelId {
      SkipAt(cr, cfg, false, i, j, w, s.out, w', o', Said(s.h));
    } else if w' != [] {
      ReceiveAt(cr, cfg, false, i, j, w, s.out, w', o', Said(s.h));
    }
  }

  lemma StepClientFinished(cr: Crypto, cfg: Config, s: Server, j: nat, w: seq<Item>, w': seq<Item>, o': seq<Item>)
    requires Inv(cr, cfg, s, j, w, w', o') && s.wait == Ok && s.st == ReadClientFinished
    ensures Inv(cr, cfg, Do(cr, cfg, s, w').0, j, w, Do(cr, cfg, s, w').1, o')
  {
    hide Wire, Trans, Secret, Script, Content, Present;
    var i := Place(cfg, s.st, s.wait);
    LastPlaces(cr, cfg, i - 3);
    if w' != [] {
      ReceiveAt(cr, cfg, false, i, j, w, s.out, w', o', Said(s.h));
    }
  }

  lemma TicketPlaces(cr: Crypto, cfg: Config, b: nat)
    requires b == if cfg.neg.resumed then 2 else 14
    ensures b + 3 <= |Script(cfg)| && forall k :: b <= k < b + 3 ==> !FromClient(Script(cfg)[k])
    ensures Present(cfg, Script(cfg)[b]) <==> cfg.neg.ticket
    ensures Content(cr, cfg, b) == Item.Handshake(NewSessionTicket(cfg.emptyTicket))
    ensures Present(cfg, Script(cfg)[b + 1]) && Content(cr, cfg, b + 1) == ChangeCipherSpec
    ensures Present(cfg, Script(cfg)[b + 2])
    ensures Content(cr, cfg, b + 2) == Item.Handshake(Finished(cr.mac(Secret(cr, cfg, b + 2), Trans(cr, cfg, b + 2), true)))
    ensures Secret(cr, cfg, b + 2) == if cfg.neg.resumed then cr.sessionSecret else cr.derive(Trans(cr, cfg, KEYED))
  {
    hide Trans;
  }

  /** What the last flight leaves of the server's other fields. */
  lemma FinishedFacts(cr: Crypto, cfg: Config, s: Server)
    requires Facts(cr, cfg, s) && s.wait == Ok && s.st == SendServerFinished
    ensures Facts(cr, cfg, ServerFinishedStep(cr, cfg, s))
  {
    hide Trans, Hashed, Said, Moves, Rank, ValidConfig;
    assert |Script(cfg)| == if cfg.neg.resumed then 9 else 17;
  }

  lemma StepServerFinished(cr: Crypto, cfg: Config, s: Server, j: nat, w: seq<Item>, w': seq<Item>, o': seq<Item>)
    requires Inv(cr, cfg, s, j, w, w', o') && s.wait == Ok && s.st == SendServerFinished
    ensures Inv(cr, cfg, Do(cr, cfg, s, w').0, j, w, Do(cr, cfg, s, w').1, o')
  {
    hide Facts, ServerFinishedStep, Said, At, ValidConfig;
    FinishedFacts(cr, cfg, s);
    FinishedAt(cr, cfg, s, j, w, w', o');
  }

  lemma FinishedNeeds(cr: Crypto, cfg: Config, s: Server)
    requires Facts(cr, cfg, s) && s.st == SendServerFinished
    ensures s.h.hash.Some? && s.secret == if cfg.neg.resumed then cr.sessionSecret else cr.derive(Trans(cr, cfg, KEYED))
  {
    hide Trans;
  }

  lemma SendSaid(s: Server, m: Message)
    requires s.h.hash.Some?
    ensures Said(Send(s, m).h) == Said(s.h) + [m] && Send(s, m).h.hash.Some? && Hashed(s.h) == Said(s.h)
  {
  }

  lemma FinishedAt(cr: Crypto, cfg: Config, s: Server, j: nat, w: seq<Item>, w': seq<Item>, o': seq<Item>)
    requires Inv(cr, cfg, s, j, w, w', o') && s.wait == Ok && s.st == SendServerFinished
    ensures var s' := ServerFinishedStep(cr, cfg, s);
            At(cr, cfg, false, Place(cfg, s'.st, s'.wait), j, w, s'.out, w', o', Said(s'.h))
  {
    hide At, Facts, Said, Hashed, Update, Trans, Secret, Script, Content, Present, FromClient, Moves, Rank;
    var b := Place(cfg, s.st, s.wait);
    FinishedNeeds(cr, cfg, s);
    TicketPlaces(cr, cfg, b);
    SendSaid(s, NewSessionTicket(cfg.emptyTicket));
    if cfg.neg.ticket {
      SendAt(cr, cfg, false, b, j, w, s.out, w', o', Said(s.h));
    } else {
      SkipAt(cr, cfg, false, b, j, w, s.out, w', o', Said(s.h));
    }
    var s1 := if cfg.neg.ticket then Send(s, NewSessionTicket(cfg.emptyTicket)) else s;
    AtTrans(cr, cfg, false, b + 1, j, w, s1.out, w', o', Said(s1.h));
    SendAt(cr, cfg, false, b + 1, j, w, s1.out, w', o', Said(s1.h));
    AtTrans(cr, cfg, false, b + 2, j, w, s1.out + [ChangeCipherSpec], w', o', Said(s1.h));
    var s2 := s1.(out := s1.out + [ChangeCipherSpec]);
    SendSaid(s2, Finished(cr.mac(s2.secret, Hashed(s2.h), true)));
    SendAt(cr, cfg, false, b + 2, j, w, s2.out, w', o', Said(s2.h));
  }

  lemma AtTrans(cr: Crypto, cfg: Config, me: bool, i: nat, j: nat,
                w: seq<Item>, o: seq<Item>, w': seq<Item>, o': seq<Item>, t: Transcript)
    requires At(cr, cfg, me, i, j, w, o, w', o', t)
    ensures i <= |Script(cfg)| && t == Trans(cr, cfg, i)
  {
    hide Script, Trans;
  }

  /** The ChangeCipherSpec that the server waits for is what comes. */
  lemma StepChangeCipherSpec(cr: Crypto, cfg: Config, s: Server, j: nat, w: seq<Item>, w': seq<Item>, o': seq<Item>)
    requires Inv(cr, cfg, s, j, w, w', o') && s.wait == ReadCcs && w' != []
    ensures w'[0] == ChangeCipherSpec && Inv(cr, cfg, s.(wait := Ok), j, w, w'[1..], o')
  {
    hide Wire, Trans, Secret, Script, Content, Present;
    var i := Place(cfg, s.st, s.wait);
    LastPlaces(cr, cfg, i);
    ReceiveAt(cr, cfg, false, i, j, w, s.out, w', o', Said(s.h));
  }

  /** Any step of the state machine: no message is unexpected, no check fails. */
  lemma StepAny(cr: Crypto, cfg: Config, s: Server, j: nat, w: seq<Item>, w': seq<Item>, o': seq<Item>)
    requires Inv(cr, cfg, s, j, w, w', o') && s.wait == Ok && SignaturesOk(cr)
    ensures Inv(cr, cfg, Do(cr, cfg, s, w').0, j, w, Do(cr, cfg, s, w').1, o')
    ensures Do(cr, cfg, s, w').0.wait != Failed
  {
    hide At, Do, Place, Said, Script, ValidConfig, Secret, SignaturesOk;
    match s.st {
      case StartAccept | ReadClientHello | SelectCertificate | SelectParameters => StepClientHello(cr, cfg, s, j, w, w', o');
      case SendServerHello => StepServerHello(cr, cfg, s, j, w, w', o');
      case SendServerCertificate => StepServerCertificate(cr, cfg, s, j, w, w', o');
      case SendServerKeyExchange => StepServerKeyExchange(cr, cfg, s, j, w, w', o');
      case SendServerHelloDone => StepServerHelloDone(cr, cfg, s, j, w, w', o');
      case ReadClientCertificate => StepClientCertificate(cr, cfg, s, j, w, w', o');
      case ReadClientKeyExchange => StepClientKeyExchange(cr, cfg, s, j, w, w', o');
      case ReadClientCertificateVerify => StepCertificateVerify(cr, cfg, s, j, w, w', o');
      case VerifyClientCertificate | ReadChangeCipherSpec | ProcessChangeCipherSpec | FinishServerHandshake =>
        StepInternal(cr, cfg, s, j, w, w', o');
      case ReadNextProto => StepNextProto(cr, cfg, s, j, w, w', o');
      case ReadChannelId => StepChannelId(cr, cfg, s, j, w, w', o');
      case ReadClientFinished => StepClientFinished(cr, cfg, s, j, w, w', o');
      case SendServerFinished => StepServerFinished(cr, cfg, s, j, w, w', o');
      case Done => DoneStays(cr, cfg, s, w');
    }
  }

  lemma DoneStays(cr: Crypto, cfg: Config, s: Server, w': seq<Item>)
    requires s.st == Done && s.wait == Ok
    ensures Do(cr, cfg, s, w') == (s, w')
  {
  }

  /** The next message that is always sent. */
  function Anchor(cfg: Config, st: State): nat {
    if BeforeHash(st) then 0
    else if st.ReadClientCertificate? || st.ReadClientKeyExchange? then 8
    else if st.ReadClientCertificateVerify? then 9
    else if cfg.neg.resumed then 8 else 13
  }

  /** While the server waits for a message, what comes is a message. */
  lemma NextMessage(cr: Crypto, cfg: Config, s: Server, j: nat, w: seq<Item>, w': seq<Item>, o': seq<Item>)
    requires Inv(cr, cfg, s, j, w, w', o') && s.wait == ReadMessage && w' != []
    ensures w'[0].Handshake?
  {
    hide Wire, Trans, Secret, Content;
    var i := Place(cfg, s.st, s.wait);
    NextIsMessage(cr, cfg, false, i, Anchor(cfg, s.st), j, w, s.out, w', o', Said(s.h));
  }

  /** While the server waits, it is the client's turn; once it is done, it is nobody's. */
  lemma TurnWhenWaiting(cr: Crypto, cfg: Config, s: Server)
    requires Facts(cr, cfg, s)
    ensures s.wait == ReadMessage || s.wait == ReadCcs ==> FirstFrom(cfg, Place(cfg, s.st, s.wait)) == Some(true)
    ensures s.st == Done ==> FirstFrom(cfg, Place(cfg, s.st, s.wait)) == None
  {
    hide FirstFrom, Trans;
    var i := Place(cfg, s.st, s.wait);
    if s.wait == ReadMessage || s.wait == ReadCcs {
      FirstFromAnchor(cfg, true, i, if s.wait == ReadCcs then i else Anchor(cfg, s.st));
    }
    if s.st == Done {
      EndOfScript(cfg);
    }
  }

  lemma EndOfScript(cfg: Config)
    ensures FirstFrom(cfg, |Script(cfg)|) == None
  {
  }
}
