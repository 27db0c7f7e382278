/** Every step of the client keeps it in its place in the script, whatever the server is doing. */
module TlsClientSteps {
  import opened Prelude
  import opened TlsScript
  import opened TlsEndpoint
  import opened TlsClient

  /** The place in the script that belongs to each state. */
  function Place(cfg: Config, st: State, wait: Wait): nat {
    match st
    case StartConnect => 0
    case EnterEarlyData | ReadServerHello => 1
    case ReadServerCertificate => 2
    case ReadCertificateStatus => 3
    case VerifyServerCertificate | ReadServerKeyExchange => 4
    case ReadCertificateRequest => 5
    case ReadServerHelloDone => 6
    case SendClientCertificate => 7
    case SendClientKeyExchange => 8
    case SendClientCertificateVerify => 9
    case SendClientFinished => if cfg.neg.resumed then 5 else 10
    case FinishFlight => if cfg.neg.resumed then 9 else 14
    case ReadSessionTicket => if cfg.neg.resumed then 2 else 14
    case ProcessChangeCipherSpec => (if cfg.neg.resumed then 3 else 15) + (if wait == ReadCcs then 0 else 1)
    case ReadServerFinished => if cfg.neg.resumed then 4 else 16
    case FinishClientHandshake | Done => if cfg.neg.resumed then 9 else 17
  }

  predicate BeforeHello(st: State) {
    st.StartConnect? || st.EnterEarlyData? || st.ReadServerHello?
  }

  /** The states that only a full handshake goes through. */
  predicate FullOnly(st: State) {
    || st.ReadServerCertificate? || st.ReadCertificateStatus? || st.VerifyServerCertificate? || st.ReadServerKeyExchange?
    || st.ReadCertificateRequest? || st.ReadServerHelloDone? || st.SendClientCertificate? || st.SendClientKeyExchange?
    || st.SendClientCertificateVerify?
  }

  /** The states in which the transcript may yet have to be signed. */
  predicate NeedsBuffer(cfg: Config, st: State) {
    || BeforeHello(st)
    || (FullOnly(st) && cfg.certRequest && cfg.clientCert)
  }

  predicate RequestUnknown(st: State) {
    || BeforeHello(st) || st.ReadServerCertificate? || st.ReadCertificateStatus? || st.VerifyServerCertificate?
    || st.ReadServerKeyExchange? || st.ReadCertificateRequest?
  }

  predicate TicketAhead(cfg: Config, st: State) {
    || FullOnly(st) || st.ReadSessionTicket?
    || (!cfg.neg.resumed && (st.SendClientFinished? || st.FinishFlight?))
  }

  predicate RequestKnown(st: State) {
    st.ReadServerHelloDone? || st.SendClientCertificate? || st.SendClientKeyExchange? || st.SendClientCertificateVerify?
  }

  predicate Facts(cr: Crypto, cfg: Config, c: Client) {
    && ValidConfig(cfg)
    && Place(cfg, c.st, c.wait) <= |Script(cfg)|
    && (BeforeHello(c.st) <==> c.h.hash.None?)
    && (!BeforeHello(c.st) ==> c.neg == cfg.neg)
    && (FullOnly(c.st) ==> !cfg.neg.resumed)
    && (NeedsBuffer(cfg, c.st) ==> c.h.buffer == Some(Said(c.h)))
    && (RequestUnknown(c.st) ==> !c.certRequest)
    && (RequestKnown(c.st) ==> c.certRequest == cfg.certRequest)
    && (TicketAhead(cfg, c.st) ==> c.ticketExpected == cfg.neg.ticket)
    && (!BeforeHello(c.st) && cfg.neg.resumed ==> c.secret == cr.sessionSecret)
    && (!cfg.neg.resumed && Place(cfg, c.st, c.wait) >= KEYED ==> c.secret == cr.derive(Trans(cr, cfg, KEYED)))
    && Waits(c)
  }

  /** When the client waits, and that nothing is left unwritten while it reads. */
  predicate Waits(c: Client) {
    && c.wait != Failed
    && (c.wait == ReadCcs ==> c.st.ProcessChangeCipherSpec?)
    && (c.wait == Flush ==> c.st.EnterEarlyData? || c.st.FinishFlight?)
    && (c.wait == ReadMessage ==> Reads(c.st) && (c.st.ReadSessionTicket? ==> c.ticketExpected))
    && (c.out != [] && c.wait != Flush ==>
          c.st.SendClientKeyExchange? || c.st.SendClientCertificateVerify? || c.st.SendClientFinished?)
  }

  /** The client's part of the invariant, with the other side at place `j`. */
  predicate Inv(cr: Crypto, cfg: Config, c: Client, j: nat, w: seq<Item>, w': seq<Item>, o': seq<Item>) {
    Facts(cr, cfg, c) && At(cr, cfg, true, Place(cfg, c.st, c.wait), j, w, c.out, w', o', Said(c.h))
  }

  // ---------------------------------------------------------------- the states

  lemma StepHello(cr: Crypto, cfg: Config, c: Client, j: nat, w: seq<Item>, w': seq<Item>, o': seq<Item>)
    requires Inv(cr, cfg, c, j, w, w', o') && c.wait == Ok && BeforeHello(c.st)
    ensures Inv(cr, cfg, Do(cr, cfg.clientCert, c, w').0, j, w, Do(cr, cfg.clientCert, c, w').1, o')
  {
    hide Wire, Trans, Secret;
    match c.st {
      case StartConnect =>
        SendAt(cr, cfg, true, 0, j, w, c.out, w', o', Said(c.h));
      case EnterEarlyData =>
      case ReadServerHello =>
        if w' != [] {
          ReceiveAt(cr, cfg, true, 1, j, w, c.out, w', o', Said(c.h));
        }
    }
  }

  lemma StepServerCertificate(cr: Crypto, cfg: Config, c: Client, j: nat, w: seq<Item>, w': seq<Item>, o': seq<Item>)
    requires Inv(cr, cfg, c, j, w, w', o') && c.wait == Ok && c.st == ReadServerCertificate
    ensures Inv(cr, cfg, Do(cr, cfg.clientCert, c, w').0, j, w, Do(cr, cfg.clientCert, c, w').1, o')
  {
    hide Wire, Trans, Secret;
    if !cfg.neg.certAuth {
      SkipAt(cr, cfg, true, 2, j, w, c.out, w', o', Said(c.h));
    } else if w' != [] {
      ReceiveAt(cr, cfg, true, 2, j, w, c.out, w', o', Said(c.h));
    }
  }

  /** The client looks at the next message to see whether a status was sent. */
  lemma StepCertificateStatus(cr: Crypto, cfg: Config, c: Client, j: nat, w: seq<Item>, w': seq<Item>, o': seq<Item>)
    requires Inv(cr, cfg, c, j, w, w', o') && c.wait == Ok && c.st == ReadCertificateStatus
    ensures Inv(cr, cfg, Do(cr, cfg.clientCert, c, w').0, j, w, Do(cr, cfg.clientCert, c, w').1, o')
  {
    hide Wire, Trans, Secret;
    if cfg.neg.certAuth && cfg.neg.status {
      if w' != [] {
        ReceiveAt(cr, cfg, true, 3, j, w, c.out, w', o', Said(c.h));
      }
    } else {
      SkipAt(cr, cfg, true, 3, j, w, c.out, w', o', Said(c.h));
      if w' != [] {
        NextFromKey(cr, cfg, j, w, c.out, w', o', Said(c.h));
      }
    }
  }

  /** From the place of the ServerKeyExchange on, what comes next is that, or a request, or the end of the hello. */
  lemma NextFromKey(cr: Crypto, cfg: Config, j: nat, w: seq<Item>, o: seq<Item>, w': seq<Item>, o': seq<Item>, t: Transcript)
    requires At(cr, cfg, true, 4, j, w, o, w', o', t) && w' != [] && !cfg.neg.resumed
    ensures NeedsServerKey(cfg) ==> w'[0] == Item.Handshake(ServerKeyExchange)
    ensures !NeedsServerKey(cfg) && cfg.certRequest ==> w'[0] == Item.Handshake(CertificateRequest)
    ensures !NeedsServerKey(cfg) && !cfg.certRequest ==> w'[0] == Item.Handshake(ServerHelloDone)
  {
    hide Wire, Trans, Secret;
    if NeedsServerKey(cfg) {
      ReceiveAt(cr, cfg, true, 4, j, w, o, w', o', t);
    } else {
      SkipAt(cr, cfg, true, 4, j, w, o, w', o', t);
      NextFromRequest(cr, cfg, j, w, o, w', o', t);
    }
  }

  lemma NextFromRequest(cr: Crypto, cfg: Config, j: nat, w: seq<Item>, o: seq<Item>, w': seq<Item>, o': seq<Item>, t: Transcript)
    requires At(cr, cfg, true, 5, j, w, o, w', o', t) && w' != [] && !cfg.neg.resumed
    ensures cfg.certRequest ==> w'[0] == Item.Handshake(CertificateRequest)
    ensures !cfg.certRequest ==> w'[0] == Item.Handshake(ServerHelloDone)
  {
    hide Wire, Trans, Secret;
    if cfg.certRequest {
      ReceiveAt(cr, cfg, true, 5, j, w, o, w', o', t);
    } else {
      SkipAt(cr, cfg, true, 5, j, w, o, w', o', t);
      ReceiveAt(cr, cfg, true, 6, j, w, o, w', o', t);
    }
  }

  lemma StepServerKeyExchange(cr: Crypto, cfg: Config, c: Client, j: nat, w: seq<Item>, w': seq<Item>, o': seq<Item>)
    requires Inv(cr, cfg, c, j, w, w', o') && c.wait == Ok && (c.st == VerifyServerCertificate || c.st == ReadServerKeyExchange)
    ensures Inv(cr, cfg, Do(cr, cfg.clientCert, c, w').0, j, w, Do(cr, cfg.clientCert, c, w').1, o')
  {
    hide Wire, Trans, Secret;
    if c.st == ReadServerKeyExchange && w' != [] {
      NextFromKey(cr, cfg, j, w, c.out, w', o', Said(c.h));
      if NeedsServerKey(cfg) {
        ReceiveAt(cr, cfg, true, 4, j, w, c.out, w', o', Said(c.h));
      } else {
        SkipAt(cr, cfg, true, 4, j, w, c.out, w', o', Said(c.h));
      }
    }
  }

  lemma StepCertificateRequest(cr: Crypto, cfg: Config, c: Client, j: nat, w: seq<Item>, w': seq<Item>, o': seq<Item>)
    requires Inv(cr, cfg, c, j, w, w', o') && c.wait == Ok && c.st == ReadCertificateRequest
    ensures Inv(cr, cfg, Do(cr, cfg.clientCert, c, w').0, j, w, Do(cr, cfg.clientCert, c, w').1, o')
  {
    hide Wire, Trans, Secret;
    if cfg.certRequest {
      if w' != [] {
        ReceiveAt(cr, cfg, true, 5, j, w, c.out, w', o', Said(c.h));
      }
    } else {
      SkipAt(cr, cfg, true, 5, j, w, c.out, w', o', Said(c.h));
      if w' != [] {
        NextFromRequest(cr, cfg, j, w, c.out, w', o', Said(c.h));
      }
    }
  }

  lemma StepServerHelloDone(cr: Crypto, cfg: Config, c: Client, j: nat, w: seq<Item>, w': seq<Item>, o': seq<Item>)
    requires Inv(cr, cfg, c, j, w, w', o') && c.wait == Ok && c.st == ReadServerHelloDone
    ensures Inv(cr, cfg, Do(cr, cfg.clientCert, c, w').0, j, w, Do(cr, cfg.clientCert, c, w').1, o')
  {
    hide Wire, Trans, Secret;
    if w' != [] {
      ReceiveAt(cr, cfg, true, 6, j, w, c.out, w', o', Said(c.h));
    }
  }

  lemma StepClientCertificate(cr: Crypto, cfg: Config, c: Client, j: nat, w: seq<Item>, w': seq<Item>, o': seq<Item>)
    requires Inv(cr, cfg, c, j, w, w', o') && c.wait == Ok && c.st == SendClientCertificate
    ensures Inv(cr, cfg, Do(cr, cfg.clientCert, c, w').0, j, w, Do(cr, cfg.clientCert, c, w').1, o')
  {
    hide Wire, Trans, Secret;
    if cfg.certRequest {
      SendAt(cr, cfg, true, 7, j, w, c.out, w', o', Said(c.h));
    } else {
      SkipAt(cr, cfg, true, 7, j, w, c.out, w', o', Said(c.h));
    }
  }

  lemma StepClientKeyExchange(cr: Crypto, cfg: Config, c: Client, j: nat, w: seq<Item>, w': seq<Item>, o': seq<Item>)
    requires Inv(cr, cfg, c, j, w, w', o') && c.wait == Ok && c.st == SendClientKeyExchange
    ensures Inv(cr, cfg, Do(cr, cfg.clientCert, c, w').0, j, w, Do(cr, cfg.clientCert, c, w').1, o')
  {
    hide Wire, Trans, Secret;
    SendAt(cr, cfg, true, 8, j, w, c.out, w', o', Said(c.h));
  }

  lemma StepCertificateVerify(cr: Crypto, cfg: Config, c: Client, j: nat, w: seq<Item>, w': seq<Item>, o': seq<Item>)
    requires Inv(cr, cfg, c, j, w, w', o') && c.wait == Ok && c.st == SendClientCertificateVerify
    ensures Inv(cr, cfg, Do(cr, cfg.clientCert, c, w').0, j, w, Do(cr, cfg.clientCert, c, w').1, o')
  {
    hide Wire, Trans, Secret;
    if cfg.certRequest && cfg.clientCert {
      SendAt(cr, cfg, true, 9, j, w, c.out, w', o', Said(c.h));
    } else {
      SkipAt(cr, cfg, true, 9, j, w, c.out, w', o', Said(c.h));
    }
  }

  lemma LastPlaces(cr: Crypto, cfg: Config, b: nat)
    requires b == if cfg.neg.resumed then 5 else 10
    ensures b + 4 <= |Script(cfg)|
    ensures forall k :: b <= k < b + 4 ==> FromClient(Script(cfg)[k])
    ensures Present(cfg, Script(cfg)[b]) && Content(cr, cfg, b) == ChangeCipherSpec
    ensures (Present(cfg, Script(cfg)[b + 1]) <==> cfg.neg.npn) && Content(cr, cfg, b + 1) == Item.Handshake(NextProto)
    ensures Present(cfg, Script(cfg)[b + 2]) <==> cfg.neg.channelId
    ensures Content(cr, cfg, b + 2) == Item.Handshake(ChannelId(cr.signId(Trans(cr, cfg, b + 2))))
    ensures Present(cfg, Script(cfg)[b + 3])
    ensures Content(cr, cfg, b + 3) == Item.Handshake(Finished(cr.mac(Secret(cr, cfg, b + 3), Trans(cr, cfg, b + 3), false)))
  {
    hide Trans, Secret;
  }

  /** The four places of the client's last flight, from place `b` on. */
  lemma LastFlight(cr: Crypto, cfg: Config, b: nat, j: nat, w: seq<Item>, c: Client, w': seq<Item>, o': seq<Item>)
    requires At(cr, cfg, true, b, j, w, c.out, w', o', Said(c.h)) && c.h.hash.Some? && c.neg == cfg.neg
    requires b == if cfg.neg.resumed then 5 else 10
    requires c.st == SendClientFinished && c.wait == Ok && c.secret == Secret(cr, cfg, b + 3)
    ensures var c' := ClientFinishedStep(cr, c);
            At(cr, cfg, true, b + 4, j, w, c'.out, w', o', Said(c'.h)) && c'.h.hash.Some?
  {
    hide Wire, Trans, Secret, Script, Content, Present, FromClient;
    var t := Said(c.h);
    LastPlaces(cr, cfg, b);
    SendAt(cr, cfg, true, b, j, w, c.out, w', o', t);
    var c1 := c.(out := c.out + [ChangeCipherSpec]);
    if cfg.neg.npn {
      SendAt(cr, cfg, true, b + 1, j, w, c1.out, w', o', t);
    } else {
      SkipAt(cr, cfg, true, b + 1, j, w, c1.out, w', o', t);
    }
    var c2 := if c.neg.npn then Send(c1, NextProto) else c1;
    if cfg.neg.channelId {
      SendAt(cr, cfg, true, b + 2, j, w, c2.out, w', o', Said(c2.h));
    } else {
      SkipAt(cr, cfg, true, b + 2, j, w, c2.out, w', o', Said(c2.h));
    }
    var c3 := if c.neg.channelId then Send(c2, ChannelId(cr.signId(Hashed(c2.h)))) else c2;
    SendAt(cr, cfg, true, b + 3, j, w, c3.out, w', o', Said(c3.h));
  }

  lemma StepClientFinished(cr: Crypto, cfg: Config, c: Client, j: nat, w: seq<Item>, w': seq<Item>, o': seq<Item>)
    requires Inv(cr, cfg, c, j, w, w', o') && c.wait == Ok && c.st == SendClientFinished
    ensures Inv(cr, cfg, Do(cr, cfg.clientCert, c, w').0, j, w, Do(cr, cfg.clientCert, c, w').1, o')
  {
    hide Wire, Trans, Content;
    LastFlight(cr, cfg, if cfg.neg.resumed then 5 else 10, j, w, c, w', o');
  }

  lemma TicketPlace(cr: Crypto, cfg: Config, i: nat)
    requires i == if cfg.neg.resumed then 2 else 14
    ensures i + 1 < |Script(cfg)| && (Present(cfg, Script(cfg)[i]) <==> cfg.neg.ticket)
    ensures Content(cr, cfg, i) == Item.Handshake(NewSessionTicket(cfg.emptyTicket))
  {
    hide Trans, Secret;
  }

  lemma StepSessionTicket(cr: Crypto, cfg: Config, c: Client, j: nat, w: seq<Item>, w': seq<Item>, o': seq<Item>)
    requires Inv(cr, cfg, c, j, w, w', o') && c.wait == Ok && c.st == ReadSessionTicket
    ensures Inv(cr, cfg, Do(cr, cfg.clientCert, c, w').0, j, w, Do(cr, cfg.clientCert, c, w').1, o')
  {
    hide Wire, Trans, Secret, Script, Content, Present;
    var i := Place(cfg, c.st, c.wait);
    TicketPlace(cr, cfg, i);
    if !cfg.neg.ticket {
      SkipAt(cr, cfg, true, i, j, w, c.out, w', o', Said(c.h));
    } else if w' != [] {
      ReceiveAt(cr, cfg, true, i, j, w, c.out, w', o', Said(c.h));
    }
  }

  lemma StepInternal(cr: Crypto, cfg: Config, c: Client, j: nat, w: seq<Item>, w': seq<Item>, o': seq<Item>)
    requires Inv(cr, cfg, c, j, w, w', o') && c.wait == Ok
    requires c.st == FinishFlight || c.st == ProcessChangeCipherSpec || c.st == FinishClientHandshake
    ensures Inv(cr, cfg, Do(cr, cfg.clientCert, c, w').0, j, w, Do(cr, cfg.clientCert, c, w').1, o')
  {
    hide At, Trans, Script, Said, ValidConfig;
    var next := Do(cr, cfg.clientCert, c, w').0;
    assert Place(cfg, next.st, next.wait) == Place(cfg, c.st, c.wait);
  }

  lemma FinishedPlace(cr: Crypto, cfg: Config, i: nat)
    requires i == if cfg.neg.resumed then 4 else 16
    ensures i < |Script(cfg)| && i + 1 <= |Script(cfg)| && Present(cfg, Script(cfg)[i])
    ensures Content(cr, cfg, i) == Item.Handshake(Finished(cr.mac(Secret(cr, cfg, i), Trans(cr, cfg, i), true)))
    ensures Secret(cr, cfg, i) == if cfg.neg.resumed then cr.sessionSecret else cr.derive(Trans(cr, cfg, KEYED))
  {
    hide Trans;
  }

  lemma StepServerFinished(cr: Crypto, cfg: Config, c: Client, j: nat, w: seq<Item>, w': seq<Item>, o': seq<Item>)
    requires Inv(cr, cfg, c, j, w, w', o') && c.wait == Ok && c.st == ReadServerFinished
    ensures Inv(cr, cfg, Do(cr, cfg.clientCert, c, w').0, j, w, Do(cr, cfg.clientCert, c, w').1, o')
  {
    hide Wire, Trans, Content, Secret, Present, Script, Moves, Rank, InitHash, FreeBuffer, ServerHelloStep, ServerCertificateStep,
      CertificateStatusStep, ServerKeyExchangeStep, CertificateRequestStep, ServerHelloDoneStep, ClientCertificateStep,
      ClientKeyExchangeStep, CertificateVerifyStep, ClientFinishedStep, SessionTicketStep;
    var i := Place(cfg, c.st, c.wait);
    FinishedPlace(cr, cfg, i);
    if w' != [] {
      ReceiveAt(cr, cfg, true, i, j, w, c.out, w', o', Said(c.h));
    }
  }

  /** The ChangeCipherSpec that the client waits for is what comes. */
  lemma StepChangeCipherSpec(cr: Crypto, cfg: Config, c: Client, j: nat, w: seq<Item>, w': seq<Item>, o': seq<Item>)
    requires Inv(cr, cfg, c, j, w, w', o') && c.wait == ReadCcs && w' != []
    ensures w'[0] == ChangeCipherSpec && Inv(cr, cfg, c.(wait := Ok), j, w, w'[1..], o')
  {
    hide Wire, Trans, Secret;
    ReceiveAt(cr, cfg, true, if cfg.neg.resumed then 3 else 15, j, w, c.out, w', o', Said(c.h));
  }

  /** Any step of the state machine: no message is unexpected, no check fails. */
  lemma StepAny(cr: Crypto, cfg: Config, c: Client, j: nat, w: seq<Item>, w': seq<Item>, o': seq<Item>)
    requires Inv(cr, cfg, c, j, w, w', o') && c.wait == Ok
    ensures Inv(cr, cfg, Do(cr, cfg.clientCert, c, w').0, j, w, Do(cr, cfg.clientCert, c, w').1, o')
    ensures Do(cr, cfg.clientCert, c, w').0.wait != Failed
  {
    hide At, Do, Place, Said, Script, ValidConfig, Secret;
    match c.st {
      case StartConnect | EnterEarlyData | ReadServerHello => StepHello(cr, cfg, c, j, w, w', o');
      case ReadServerCertificate => StepServerCertificate(cr, cfg, c, j, w, w', o');
      case ReadCertificateStatus => StepCertificateStatus(cr, cfg, c, j, w, w', o');
      case VerifyServerCertificate | ReadServerKeyExchange => StepServerKeyExchange(cr, cfg, c, j, w, w', o');
      case ReadCertificateRequest => StepCertificateRequest(cr, cfg, c, j, w, w', o');
      case ReadServerHelloDone => StepServerHelloDone(cr, cfg, c, j, w, w', o');
      case SendClientCertificate => StepClientCertificate(cr, cfg, c, j, w, w', o');
      case SendClientKeyExchange => StepClientKeyExchange(cr, cfg, c, j, w, w', o');
      case SendClientCertificateVerify => StepCertificateVerify(cr, cfg, c, j, w, w', o');
      case SendClientFinished => StepClientFinished(cr, cfg, c, j, w, w', o');
      case ReadSessionTicket => StepSessionTicket(cr, cfg, c, j, w, w', o');
      case ReadServerFinished => StepServerFinished(cr, cfg, c, j, w, w', o');
      case FinishFlight | ProcessChangeCipherSpec | FinishClientHandshake => StepInternal(cr, cfg, c, j, w, w', o');
      case Done => DoneStays(cr, cfg, c, w');
    }
  }

  lemma DoneStays(cr: Crypto, cfg: Config, c: Client, w': seq<Item>)
    requires c.st == Done && c.wait == Ok
    ensures Do(cr, cfg.clientCert, c, w') == (c, w')
  {
  }

  /** While the client waits for a message, what comes is a message. */
  lemma NextMessage(cr: Crypto, cfg: Config, c: Client, j: nat, w: seq<Item>, w': seq<Item>, o': seq<Item>)
    requires Inv(cr, cfg, c, j, w, w', o') && c.wait == ReadMessage && w' != []
    ensures w'[0].Handshake?
  {
    hide Wire, Trans, Secret, Content;
    var i := Place(cfg, c.st, c.wait);
    NextIsMessage(cr, cfg, true, i, if i == 1 then 1 else if FullOnly(c.st) then 6 else i, j, w, c.out, w', o', Said(c.h));
  }

  /** While the client waits, it is the server's turn; once it is done, it is nobody's. */
  lemma TurnWhenWaiting(cr: Crypto, cfg: Config, c: Client)
    requires Facts(cr, cfg, c)
    ensures c.wait == ReadMessage || c.wait == ReadCcs ==> FirstFrom(cfg, Place(cfg, c.st, c.wait)) == Some(false)
    ensures c.st == Done ==> FirstFrom(cfg, Place(cfg, c.st, c.wait)) == None
  {
    hide FirstFrom, Trans;
    var i := Place(cfg, c.st, c.wait);
    if c.wait == ReadMessage || c.wait == ReadCcs {
      FirstFromAnchor(cfg, false, i, if i == 1 then 1 else if FullOnly(c.st) then 6 else i);
    }
    if c.st == Done {
      EndOfScript(cfg);
    }
  }

  lemma EndOfScript(cfg: Config)
    ensures FirstFrom(cfg, |Script(cfg)|) == None
  {
  }
}
