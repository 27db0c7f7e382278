/**
 The server against any peer: whatever arrives and whenever, what it takes in and says is in order, nothing
 that is due is skipped, its transcript is exactly that, and every Finished and every signature in it is right; it
 is done only after the peer's ChangeCipherSpec and the peer's Finished.
 */
module TlsAloneServer {
  import opened Prelude
  import opened TlsScript
  import opened TlsEndpoint
  import opened TlsServer
  import opened TlsOrder
  import opened TlsPair
  import SS = TlsServerSteps
  import C = TlsClient

  /** The server, what has arrived from whoever is there, and what has been taken in and said. */
  datatype Alone = Alone(s: Server, inbox: seq<Item>, log: seq<Entry>)

  datatype Event = Deliver(item: Item) | Move

  function Step(cr: Crypto, cfg: Config, a: Alone, e: Event): Alone {
    match e
    case Deliver(item) => a.(inbox := a.inbox + [item])
    case Move =>
      var p := StepServer(cr, cfg, Pair(C.Start(), a.s, a.inbox, []));
      Alone(p.s, p.toServer, a.log + News(a.s.out, a.inbox, p.s.out, p.toServer))
  }

  function Exec(cr: Crypto, cfg: Config, events: seq<Event>): Alone {
    if events == [] then Alone(TlsServer.Start(), [], [])
    else Step(cr, cfg, Exec(cr, cfg, events[..|events| - 1]), events[|events| - 1])
  }

  /** The place in the order that the server has got to. A failure leaves it in front of a ChangeCipherSpec it waits for. */
  function Place(cfg: Config, s: Server): nat {
    SS.Place(cfg, s.st, if s.wait == Failed then ReadCcs else s.wait)
  }

  /** What may not be missing and, on the other hand, all that may be there. */
  predicate Due(cfg: Config, s: Server, k: Kind) {
    match k
    case KServerCert => cfg.neg.certAuth
    case KStatus => cfg.neg.certAuth && cfg.neg.status
    case KServerKey => NeedsServerKey(cfg)
    case KCertRequest | KClientCert => cfg.certRequest && cfg.neg.certAuth
    case KCertVerify => s.peerKey
    case KNextProto => cfg.neg.npn
    case KChannelId => cfg.neg.channelId
    case KTicket => cfg.neg.ticket
    case _ => true
  }

  /** A signature over the transcript may yet have to be checked. */
  predicate MayCheck(s: Server) {
    || ((s.st.SendServerHello? || SS.BeforeClientCert(s.st)) && s.certRequest)
    || (SS.AfterClientCert(s.st) && s.peerKey)
  }

  /** What a state that reads waits for, and may refuse the rest. */
  function Awaited(st: State): Kind {
    match st
    case ReadClientCertificate => KClientCert
    case ReadClientKeyExchange => KClientKey
    case ReadClientCertificateVerify => KCertVerify
    case ProcessChangeCipherSpec => KClientCcs
    case ReadNextProto => KNextProto
    case ReadChannelId => KChannelId
    case ReadClientFinished => KClientFinished
    case _ => KClientHello
  }

  /** What the states say about the server's other fields. */
  predicate Plain(cr: Crypto, cfg: Config, s: Server) {
    && (SS.BeforeClientCert(s.st) || SS.AfterClientCert(s.st) ==> !cfg.neg.resumed)
    && (s.certRequest == (!SS.BeforeHash(s.st) && !cfg.neg.resumed && cfg.certRequest && cfg.neg.certAuth))
    && (!SS.BeforeHash(s.st) && cfg.neg.resumed ==> s.secret == cr.sessionSecret)
    && (SS.BeforeHash(s.st) || MayCheck(s) <==> s.h.buffer.Some?)
    && (SS.BeforeHash(s.st) || s.st.SendServerHello? || SS.BeforeClientCert(s.st) ==> !s.peerKey)
    && (s.st.SendServerKeyExchange? ==> s.keyParams == NeedsServerKey(cfg))
    && (s.wait == ReadCcs ==> s.st.ProcessChangeCipherSpec?)
    && (s.wait == Flush ==> s.st.ReadClientCertificate? || s.st.ReadChangeCipherSpec? || s.st.FinishServerHandshake?)
    && (s.wait == ReadMessage ==> Reads(s.st) && Due(cfg, s, Awaited(s.st)))
  }

  predicate Sound(cr: Crypto, cfg: Config, s: Server, said: Transcript) {
    Plain(cr, cfg, s) && Agrees(s.h, said) && (SS.BeforeHash(s.st) <==> s.h.hash.None?)
  }

  /** Until it is taken in, the ClientHello that was looked at stays where it is. */
  predicate HelloThere(s: Server, inp: seq<Item>) {
    s.st.SelectCertificate? || s.st.SelectParameters? ==> inp != [] && inp[0] == Item.Handshake(ClientHello)
  }

  /** What is due by now was due before or is one of these kinds. */
  predicate Only(cfg: Config, s: Server, s': Server, ks: set<Kind>) {
    forall k :: Due(cfg, s', k) && Pos(cfg.neg.resumed, k) < Place(cfg, s') ==>
      (Due(cfg, s, k) && Pos(cfg.neg.resumed, k) < Place(cfg, s)) || k in ks
  }

  /** What is due by now was due before or is among the news. */
  predicate NothingSkipped(cfg: Config, s: Server, s': Server, es: seq<Entry>) {
    forall k :: Due(cfg, s', k) && Pos(cfg.neg.resumed, k) < Place(cfg, s') ==>
      (Due(cfg, s, k) && Pos(cfg.neg.resumed, k) < Place(cfg, s)) || Has(false, es, k)
  }

  /** The certificate of a client with a key, taken in. */
  const CERTIFIED := Entry(false, Item.Handshake(Certificate(true)))

  /** Nothing is among the news that may not be there. */
  predicate NothingExtra(cfg: Config, s': Server, es: seq<Entry>) {
    forall k :: Has(false, es, k) ==> Due(cfg, s', k)
  }

  /** The ClientHello settles the secret or, in a full handshake, the ClientKeyExchange does. */
  predicate Settled(cfg: Config, s: Server, s': Server) {
    s.secret == s'.secret || Free(cfg.neg.resumed, Place(cfg, s))
  }

  /** Everything about one step of the state machine, without the past. */
  predicate GoodStep(cr: Crypto, cfg: Config, s: Server, said: Transcript, s': Server, es: seq<Entry>) {
    && Sound(cr, cfg, s', said + Messages(es))
    && Place(cfg, s) <= Place(cfg, s')
    && Proper(cr, false, cfg, s'.secret, said, es, Place(cfg, s), Place(cfg, s'))
    && Settled(cfg, s, s')
    && NothingSkipped(cfg, s, s', es)
    && NothingExtra(cfg, s', es)
    && s'.peerKey == (s.peerKey || CERTIFIED in es)
  }

  /** A step with its result, what it took in and said read off from it. */
  predicate GoodResult(cr: Crypto, cfg: Config, s: Server, inp: seq<Item>, said: Transcript, r: (Server, seq<Item>)) {
    GoodStep(cr, cfg, s, said, r.0, News(s.out, inp, r.0.out, r.1)) && HelloThere(r.0, r.1)
  }

  // ---------------------------------------------------------------- one message at most

  /** A step may say and hear nothing. */
  predicate Stays(cr: Crypto, cfg: Config, s: Server, said: Transcript, s': Server) {
    Sound(cr, cfg, s', said) && Place(cfg, s) <= Place(cfg, s') && s.secret == s'.secret && s.peerKey == s'.peerKey
    && Only(cfg, s, s', {})
  }

  /** A step may say or hear one thing. */
  predicate Fits(cr: Crypto, cfg: Config, s: Server, said: Transcript, s': Server, e: Entry) {
    var k := KindOf(false, e);
    && Sound(cr, cfg, s', After(said, e.item)) && Settled(cfg, s, s') && Only(cfg, s, s', {k})
    && Place(cfg, s) <= Pos(cfg.neg.resumed, k) < Place(cfg, s') && e.sent == !FromClient(k)
    && Proves(cr, false, cfg, s'.secret, said, e) && Due(cfg, s', k) && s'.peerKey == (s.peerKey || e == CERTIFIED)
  }

  /** A step that stays, or passes one place: with what belongs there or, if that is not due, without. */
  lemma Passes(cfg: Config, s: Server, s': Server, k: Kind, there: bool)
    requires s.peerKey == s'.peerKey || Place(cfg, s') <= Pos(cfg.neg.resumed, KCertVerify)
    requires Place(cfg, s') == Place(cfg, s)
          || (Place(cfg, s') == Place(cfg, s) + 1 && Place(cfg, s) == Pos(cfg.neg.resumed, k) < NOWHERE)
    requires Place(cfg, s') == Place(cfg, s) || there || !Due(cfg, s', k)
    ensures Only(cfg, s, s', if there then {k} else {})
  {
    hide Place, Pos;
    forall k' | Due(cfg, s', k') && Pos(cfg.neg.resumed, k') < Place(cfg, s')
      ensures (Due(cfg, s, k') && Pos(cfg.neg.resumed, k') < Place(cfg, s)) || (there && k' == k)
    {
      if Pos(cfg.neg.resumed, k') == Place(cfg, s) {
        PosInjective(cfg.neg.resumed, k, k');
      }
    }
  }

  lemma StaysGood(cr: Crypto, cfg: Config, s: Server, said: Transcript, s': Server)
    requires Stays(cr, cfg, s, said, s')
    ensures GoodStep(cr, cfg, s, said, s', [])
  {
    hide Sound, Place, Due, Pos, Proper;
    ProperNone(cr, false, cfg, s'.secret, said, Place(cfg, s), Place(cfg, s'));
    MessagesOne(said, Entry(true, ChangeCipherSpec));
  }

  lemma FitsGood(cr: Crypto, cfg: Config, s: Server, said: Transcript, s': Server, e: Entry)
    requires Fits(cr, cfg, s, said, s', e)
    ensures GoodStep(cr, cfg, s, said, s', [e])
  {
    hide Sound, Place, Due, Pos, Proper, KindOf, FromClient, Proves, Settled, Messages, Has;
    ProperOne(cr, false, cfg, s'.secret, said, e, Place(cfg, s), Place(cfg, s'));
    MessagesOne(said, e);
    HasOne(false, e);
  }

  /** A step that takes the front of the input at most. */
  lemma TakesFront(cr: Crypto, cfg: Config, s: Server, inp: seq<Item>, said: Transcript, r: (Server, seq<Item>))
    requires r.0.out == s.out && (r.1 == inp || (inp != [] && r.1 == inp[1..])) && HelloThere(r.0, r.1)
    requires r.1 == inp ==> Stays(cr, cfg, s, said, r.0)
    requires r.1 != inp ==> Fits(cr, cfg, s, said, r.0, Entry(false, inp[0]))
    ensures GoodResult(cr, cfg, s, inp, said, r)
  {
    hide Stays, Fits, GoodStep, News;
    NewsRead(s.out, inp);
    if r.1 == inp {
      StaysGood(cr, cfg, s, said, r.0);
    } else {
      FitsGood(cr, cfg, s, said, r.0, Entry(false, inp[0]));
    }
  }

  /** A step that adds one message to the flight. */
  lemma SaysOne(cr: Crypto, cfg: Config, s: Server, inp: seq<Item>, said: Transcript, s': Server, m: Message)
    requires s'.out == s.out + [Item.Handshake(m)] && Fits(cr, cfg, s, said, s', Entry(true, Item.Handshake(m)))
    requires HelloThere(s', inp)
    ensures GoodResult(cr, cfg, s, inp, said, (s', inp))
  {
    hide Fits, GoodStep, News;
    NewsSpoken(s.out, inp, [Item.Handshake(m)]);
    assert Spoken([Item.Handshake(m)]) == [Entry(true, Item.Handshake(m))];
    FitsGood(cr, cfg, s, said, s', Entry(true, Item.Handshake(m)));
  }

  lemma SelectParametersGood(cr: Crypto, cfg: Config, s: Server, inp: seq<Item>, said: Transcript)
    requires s.wait == Ok && Sound(cr, cfg, s, said) && s.st == SelectParameters && HelloThere(s, inp)
    ensures GoodResult(cr, cfg, s, inp, said, SelectParametersStep(cr, cfg, s, inp))
  {
    hide GoodResult, Moves, Rank, Only, Hashed;
    var r := SelectParametersStep(cr, cfg, s, inp);
    Passes(cfg, s, r.0, KClientHello, true);
    TakesFront(cr, cfg, s, inp, said, r);
  }

  lemma ClientCertificateGood(cr: Crypto, cfg: Config, s: Server, inp: seq<Item>, said: Transcript)
    requires s.wait == Ok && Sound(cr, cfg, s, said) && s.st == ReadClientCertificate
    ensures GoodResult(cr, cfg, s, inp, said, ClientCertificateStep(cfg, s, inp))
  {
    hide GoodResult, Moves, Rank, Agrees, Update, FreeBuffer, Only, Hashed;
    var r := ClientCertificateStep(cfg, s, inp);
    if Front(inp).Some? {
      UpdateAgrees(s.h, said, inp[0].m);
    }
    Passes(cfg, s, r.0, KClientCert, r.1 != inp);
    TakesFront(cr, cfg, s, inp, said, r);
  }

  lemma ClientKeyExchangeGood(cr: Crypto, cfg: Config, s: Server, inp: seq<Item>, said: Transcript)
    requires s.wait == Ok && Sound(cr, cfg, s, said) && s.st == ReadClientKeyExchange
    ensures GoodResult(cr, cfg, s, inp, said, ClientKeyExchangeStep(cr, cfg, s, inp))
  {
    hide GoodResult, Moves, Rank, Update, FreeBuffer, Only;
    var r := ClientKeyExchangeStep(cr, cfg, s, inp);
    if Front(inp).Some? {
      UpdateAgrees(s.h, said, inp[0].m);
    }
    Passes(cfg, s, r.0, KClientKey, r.1 != inp);
    TakesFront(cr, cfg, s, inp, said, r);
  }

  lemma CertificateVerifyGood(cr: Crypto, cfg: Config, s: Server, inp: seq<Item>, said: Transcript)
    requires s.wait == Ok && Sound(cr, cfg, s, said) && s.st == ReadClientCertificateVerify
    ensures GoodResult(cr, cfg, s, inp, said, CertificateVerifyStep(cr, cfg, s, inp))
  {
    hide GoodResult, Moves, Rank, Agrees, Update, FreeBuffer, Only, Hashed;
    var r := CertificateVerifyStep(cr, cfg, s, inp);
    UpdateAgrees(s.h, said, ClientHello);
    if Front(inp).Some? {
      UpdateAgrees(FreeBuffer(s.h), said, inp[0].m);
    }
    Passes(cfg, s, r.0, KCertVerify, r.1 != inp);
    TakesFront(cr, cfg, s, inp, said, r);
  }

  /** The two messages that may come in front of the client's Finished. */
  lemma ExtraPlaces(cr: Crypto, cfg: Config, s: Server, s': Server)
    requires Plain(cr, cfg, s) && s.wait == Ok && s'.wait == Ok && s'.certRequest == s.certRequest && s'.peerKey == s.peerKey
    requires s'.secret == s.secret && s'.h.buffer.Some? == s.h.buffer.Some?
    requires (s.st == ReadNextProto && s'.st == ReadChannelId) || (s.st == ReadChannelId && s'.st == ReadClientFinished)
    ensures Plain(cr, cfg, s') && Place(cfg, s') == Place(cfg, s) + 1 && !SS.BeforeHash(s'.st)
    ensures Place(cfg, s) == Pos(cfg.neg.resumed, if s.st == ReadNextProto then KNextProto else KChannelId) < NOWHERE
  {
  }

  /** Such a message is passed over if it was not negotiated; otherwise it has to be there, and right. */
  lemma ExtraGood(cr: Crypto, cfg: Config, s: Server, inp: seq<Item>, said: Transcript, r: (Server, seq<Item>), st': State)
    requires s.wait == Ok && Sound(cr, cfg, s, said)
    requires (s.st == ReadNextProto && st' == ReadChannelId) || (s.st == ReadChannelId && st' == ReadClientFinished)
    requires
      var k := if s.st == ReadNextProto then KNextProto else KChannelId;
      || (r.1 == inp && r.0.wait in {ReadMessage, Failed} && r.0 == s.(wait := r.0.wait) && Due(cfg, s, k))
      || (r.1 == inp && r.0 == Goto(s, st', Ok) && !Due(cfg, s, k))
      || (Front(inp).Some? && Due(cfg, s, k) && r.1 == inp[1..] && r.0 == Goto(Hash(s, inp[0].m), st', Ok)
          && KindOf(false, Entry(false, inp[0])) == k && Proves(cr, false, cfg, s.secret, said, Entry(false, inp[0])))
    ensures GoodResult(cr, cfg, s, inp, said, r)
  {
    hide GoodResult, Agrees, Update, Only, Place, Pos, Plain, Proves;
    var k := if s.st == ReadNextProto then KNextProto else KChannelId;
    if Front(inp).Some? {
      UpdateAgrees(s.h, said, inp[0].m);
    }
    if r.0.st == st' {
      ExtraPlaces(cr, cfg, s, r.0);
      Passes(cfg, s, r.0, k, r.1 != inp);
    } else {
      StuckPlaces(cr, cfg, s, r.0);
      Passes(cfg, s, r.0, k, false);
    }
    TakesFront(cr, cfg, s, inp, said, r);
  }

  lemma StuckPlaces(cr: Crypto, cfg: Config, s: Server, s': Server)
    requires Plain(cr, cfg, s) && s.wait == Ok && s'.wait in {ReadMessage, Failed} && s' == s.(wait := s'.wait)
    requires s.st == ReadNextProto || s.st == ReadChannelId
    requires s'.wait == ReadMessage ==> Due(cfg, s, if s.st == ReadNextProto then KNextProto else KChannelId)
    ensures Plain(cr, cfg, s') && Place(cfg, s') == Place(cfg, s)
  {
  }

  lemma NextProtoGood(cr: Crypto, cfg: Config, s: Server, inp: seq<Item>, said: Transcript)
    requires s.wait == Ok && Sound(cr, cfg, s, said) && s.st == ReadNextProto
    ensures GoodResult(cr, cfg, s, inp, said, NextProtoStep(cfg, s, inp))
  {
    hide GoodResult, Moves, Rank, Agrees, Update, Hashed, Plain;
    UpdateAgrees(s.h, said, ClientHello);
    ExtraGood(cr, cfg, s, inp, said, NextProtoStep(cfg, s, inp), ReadChannelId);
  }

  lemma ChannelIdGood(cr: Crypto, cfg: Config, s: Server, inp: seq<Item>, said: Transcript)
    requires s.wait == Ok && Sound(cr, cfg, s, said) && s.st == ReadChannelId
    ensures GoodResult(cr, cfg, s, inp, said, ChannelIdStep(cr, cfg, s, inp))
  {
    hide GoodResult, Moves, Rank, Agrees, Update, Hashed, Plain;
    UpdateAgrees(s.h, said, ClientHello);
    ExtraGood(cr, cfg, s, inp, said, ChannelIdStep(cr, cfg, s, inp), ReadClientFinished);
  }

  lemma ClientFinishedGood(cr: Crypto, cfg: Config, s: Server, inp: seq<Item>, said: Transcript)
    requires s.wait == Ok && Sound(cr, cfg, s, said) && s.st == ReadClientFinished
    ensures GoodResult(cr, cfg, s, inp, said, ClientFinishedStep(cr, cfg, s, inp))
  {
    hide GoodResult, Moves, Rank, Agrees, Update, FreeBuffer, Only, Hashed, Stays, Fits;
    var r := ClientFinishedStep(cr, cfg, s, inp);
    if Front(inp).Some? {
      UpdateAgrees(s.h, said, inp[0].m);
    }
    FinishedPassed(cr, cfg, s, inp);
    if r.1 == inp {
      FinishedStays(cr, cfg, s, said, r.0);
    } else {
      FinishedFits(cr, cfg, s, said, r.0, inp[0]);
    }
    TakesFront(cr, cfg, s, inp, said, r);
  }

  lemma FinishedPassed(cr: Crypto, cfg: Config, s: Server, inp: seq<Item>)
    requires s.wait == Ok && s.st == ReadClientFinished
    ensures var r := ClientFinishedStep(cr, cfg, s, inp); Only(cfg, s, r.0, if r.1 != inp then {KClientFinished} else {})
  {
    hide Moves, Rank, Update, Only, Hashed;
    var r := ClientFinishedStep(cr, cfg, s, inp);
    Passes(cfg, s, r.0, KClientFinished, r.1 != inp);
  }

  lemma FinishedStays(cr: Crypto, cfg: Config, s: Server, said: Transcript, s': Server)
    requires Sound(cr, cfg, s, said) && s.st == ReadClientFinished && s.wait == Ok && Only(cfg, s, s', {})
    requires s' == s.(wait := s'.wait) && s'.wait in {ReadMessage, Failed}
    ensures Stays(cr, cfg, s, said, s')
  {
    hide Agrees, Only;
  }

  lemma FinishedFits(cr: Crypto, cfg: Config, s: Server, said: Transcript, s': Server, item: Item)
    requires Sound(cr, cfg, s, said) && s.st == ReadClientFinished && s.wait == Ok
    requires item == Item.Handshake(Finished(cr.mac(s.secret, said, false)))
    requires s' == Goto(Hash(s, item.m), if cfg.neg.resumed then FinishServerHandshake else SendServerFinished, Ok)
    requires Agrees(s'.h, said + [item.m]) && s'.h.hash.Some? && s'.h.buffer.Some? == s.h.buffer.Some?
    requires Only(cfg, s, s', {KClientFinished})
    ensures Fits(cr, cfg, s, said, s', Entry(false, item))
  {
    hide Agrees, Update, Only;
  }

  /** The states that look at the ClientHello, and those that neither read nor send. */
  lemma InternalGood(cr: Crypto, cfg: Config, s: Server, inp: seq<Item>, said: Transcript)
    requires s.wait == Ok && Sound(cr, cfg, s, said) && HelloThere(s, inp)
    requires s.st in {StartAccept, ReadClientHello, SelectCertificate, VerifyClientCertificate, ReadChangeCipherSpec,
                      ProcessChangeCipherSpec, FinishServerHandshake, Done}
    ensures GoodResult(cr, cfg, s, inp, said, Do(cr, cfg, s, inp))
  {
    hide GoodResult, Moves, Rank, Agrees, Pos, Stays;
    if s.st in {StartAccept, ReadClientHello, SelectCertificate} {
      EarlyStays(cr, cfg, s, inp, said);
    } else {
      LateStays(cr, cfg, s, inp, said);
    }
    TakesFront(cr, cfg, s, inp, said, Do(cr, cfg, s, inp));
  }

  lemma EarlyStays(cr: Crypto, cfg: Config, s: Server, inp: seq<Item>, said: Transcript)
    requires s.wait == Ok && Sound(cr, cfg, s, said) && s.st in {StartAccept, ReadClientHello, SelectCertificate}
    ensures Stays(cr, cfg, s, said, Do(cr, cfg, s, inp).0)
  {
    hide Moves, Rank, Agrees, Pos;
  }

  lemma LateStays(cr: Crypto, cfg: Config, s: Server, inp: seq<Item>, said: Transcript)
    requires s.wait == Ok && Sound(cr, cfg, s, said)
    requires s.st in {VerifyClientCertificate, ReadChangeCipherSpec, ProcessChangeCipherSpec, FinishServerHandshake, Done}
    ensures Stays(cr, cfg, s, said, Do(cr, cfg, s, inp).0)
  {
    hide Moves, Rank, Agrees, Pos;
  }

  /** The ChangeCipherSpec that is waited for. */
  lemma CcsGood(cr: Crypto, cfg: Config, s: Server, inp: seq<Item>, said: Transcript)
    requires s.wait == ReadCcs && Sound(cr, cfg, s, said) && inp != [] && inp[0].ChangeCipherSpec?
    ensures GoodResult(cr, cfg, s, inp, said, (s.(wait := Ok), inp[1..]))
  {
    hide GoodResult, Agrees, Only;
    Passes(cfg, s, s.(wait := Ok), KClientCcs, true);
    TakesFront(cr, cfg, s, inp, said, (s.(wait := Ok), inp[1..]));
  }

  lemma ServerHelloGood(cr: Crypto, cfg: Config, s: Server, inp: seq<Item>, said: Transcript)
    requires s.wait == Ok && Sound(cr, cfg, s, said) && s.st == SendServerHello
    ensures GoodResult(cr, cfg, s, inp, said, (ServerHelloStep(cfg, s), inp))
  {
    hide GoodResult, Moves, Rank, Agrees, Update, Only;
    UpdateAgrees(s.h, said, ServerHello(cfg.neg));
    Passes(cfg, s, ServerHelloStep(cfg, s), KServerHello, true);
    SaysOne(cr, cfg, s, inp, said, ServerHelloStep(cfg, s), ServerHello(cfg.neg));
  }

  lemma ServerKeyExchangeGood(cr: Crypto, cfg: Config, s: Server, inp: seq<Item>, said: Transcript)
    requires s.wait == Ok && Sound(cr, cfg, s, said) && s.st == SendServerKeyExchange
    ensures GoodResult(cr, cfg, s, inp, said, (ServerKeyExchangeStep(cfg, s), inp))
  {
    hide GoodResult, Moves, Rank, Agrees, Update, Only;
    UpdateAgrees(s.h, said, ServerKeyExchange);
    Passes(cfg, s, ServerKeyExchangeStep(cfg, s), KServerKey, s.keyParams);
    if s.keyParams {
      SaysOne(cr, cfg, s, inp, said, ServerKeyExchangeStep(cfg, s), ServerKeyExchange);
    } else {
      TakesFront(cr, cfg, s, inp, said, (ServerKeyExchangeStep(cfg, s), inp));
    }
  }

  // ---------------------------------------------------------------- the states that send more

  predicate SendsMore(st: State) {
    st.SendServerCertificate? || st.SendServerHelloDone? || st.SendServerFinished?
  }

  predicate FirstThere(cfg: Config, s: Server) {
    match s.st
    case SendServerCertificate => cfg.neg.certAuth
    case SendServerHelloDone => s.certRequest
    case _ => cfg.neg.ticket
  }

  function FirstItem(cfg: Config, s: Server): Item {
    match s.st
    case SendServerCertificate => Item.Handshake(Certificate(true))
    case SendServerHelloDone => Item.Handshake(CertificateRequest)
    case _ => Item.Handshake(NewSessionTicket(cfg.emptyTicket))
  }

  function FirstItems(cfg: Config, s: Server): seq<Item> {
    Maybe(FirstThere(cfg, s), FirstItem(cfg, s))
  }

  predicate SecondThere(cfg: Config, s: Server) {
    s.st.SendServerCertificate? ==> cfg.neg.certAuth && cfg.neg.status
  }

  function SecondItem(cfg: Config, s: Server): Item {
    match s.st
    case SendServerCertificate => Item.Handshake(CertificateStatus)
    case SendServerHelloDone => Item.Handshake(ServerHelloDone)
    case _ => ChangeCipherSpec
  }

  function TwoItems(cfg: Config, s: Server): seq<Item> {
    FirstItems(cfg, s) + Maybe(SecondThere(cfg, s), SecondItem(cfg, s))
  }

  function LastItem(cr: Crypto, cfg: Config, s: Server): Item {
    Item.Handshake(Finished(cr.mac(s.secret, Hashed(SayAll(s.h, TwoItems(cfg, s))), true)))
  }

  function Flight(cr: Crypto, cfg: Config, s: Server): seq<Item> {
    TwoItems(cfg, s) + Maybe(s.st.SendServerFinished?, LastItem(cr, cfg, s))
  }

  lemma FlightSaid(cr: Crypto, cfg: Config, s: Server)
    ensures SayAll(s.h, FirstItems(cfg, s)) == if FirstThere(cfg, s) then Say(s.h, FirstItem(cfg, s)) else s.h
    ensures SayAll(s.h, TwoItems(cfg, s)) == var h := SayAll(s.h, FirstItems(cfg, s));
                                             if SecondThere(cfg, s) then Say(h, SecondItem(cfg, s)) else h
    ensures SayAll(s.h, Flight(cr, cfg, s)) == var h := SayAll(s.h, TwoItems(cfg, s));
                                               if s.st.SendServerFinished? then Say(h, LastItem(cr, cfg, s)) else h
  {
    hide Say, Hashed, FirstItem, FirstThere, SecondItem, SecondThere, SayAll;
    if FirstThere(cfg, s) {
      SayOne(s.h, FirstItem(cfg, s));
    } else {
      SayNone(s.h);
    }
    SayMaybe(s.h, FirstItems(cfg, s), SecondThere(cfg, s), SecondItem(cfg, s));
    SayMaybe(s.h, TwoItems(cfg, s), s.st.SendServerFinished?, LastItem(cr, cfg, s));
  }

  lemma CertificateSent(cr: Crypto, cfg: Config, s: Server)
    requires s.wait == Ok && s.st == SendServerCertificate
    ensures var s' := ServerCertificateStep(cfg, s);
            s'.out == s.out + Flight(cr, cfg, s) && s'.h == SayAll(s.h, Flight(cr, cfg, s))
  {
    hide Moves, Rank, Update, SayAll;
    FlightSaid(cr, cfg, s);
  }

  lemma HelloDoneSent(cr: Crypto, cfg: Config, s: Server)
    requires s.wait == Ok && s.st == SendServerHelloDone
    ensures var s' := ServerHelloDoneStep(cfg, s);
            s'.out == s.out + Flight(cr, cfg, s) && s'.h == SayAll(s.h, Flight(cr, cfg, s))
  {
    hide Moves, Rank, Update, SayAll;
    FlightSaid(cr, cfg, s);
  }

  lemma FinishedSent(cr: Crypto, cfg: Config, s: Server)
    requires s.wait == Ok && s.st == SendServerFinished
    ensures var s' := ServerFinishedStep(cr, cfg, s);
            s'.out == s.out + Flight(cr, cfg, s) && s'.h == SayAll(s.h, Flight(cr, cfg, s))
  {
    hide Moves, Rank, Update, Hashed, SayAll;
    FlightSaid(cr, cfg, s);
  }

  lemma FlightSent(cr: Crypto, cfg: Config, s: Server, inp: seq<Item>)
    requires s.wait == Ok && SendsMore(s.st)
    ensures var s' := Do(cr, cfg, s, inp).0;
            s'.out == s.out + Flight(cr, cfg, s) && s'.h == SayAll(s.h, Flight(cr, cfg, s)) && Do(cr, cfg, s, inp).1 == inp
  {
    hide Flight, SayAll, ServerCertificateStep, ServerHelloDoneStep, ServerFinishedStep, Moves, Rank;
    match s.st {
      case SendServerCertificate => CertificateSent(cr, cfg, s);
      case SendServerHelloDone => HelloDoneSent(cr, cfg, s);
      case SendServerFinished => FinishedSent(cr, cfg, s);
    }
  }

  lemma FlightProper(cr: Crypto, cfg: Config, s: Server, said: Transcript)
    requires Plain(cr, cfg, s) && SendsMore(s.st) && Agrees(s.h, said) && s.h.hash.Some?
    ensures var p := Place(cfg, s);
            Proper(cr, false, cfg, s.secret, said, Spoken(Flight(cr, cfg, s)), p,
                   if s.st.SendServerFinished? then p + 3 else p + 2)
  {
    hide Proper, Messages, Agrees, Hashed, SayAll;
    var p := Place(cfg, s);
    FirstProper(cr, cfg, s, said);
    ProperSent(cr, false, cfg, s.secret, said, FirstItems(cfg, s), SecondThere(cfg, s), SecondItem(cfg, s), p, p + 1, p + 2);
    SayAllAgrees(s.h, TwoItems(cfg, s), said);
    ProperSent(cr, false, cfg, s.secret, said, TwoItems(cfg, s), s.st.SendServerFinished?, LastItem(cr, cfg, s), p, p + 2,
      if s.st.SendServerFinished? then p + 3 else p + 2);
  }

  lemma FirstProper(cr: Crypto, cfg: Config, s: Server, said: Transcript)
    requires Plain(cr, cfg, s) && SendsMore(s.st)
    ensures Proper(cr, false, cfg, s.secret, said, Spoken(FirstItems(cfg, s)), Place(cfg, s), Place(cfg, s) + 1)
  {
    hide Proper, Messages;
    var p, items := Place(cfg, s), FirstItems(cfg, s);
    if items == [] {
      ProperNone(cr, false, cfg, s.secret, said, p, p + 1);
      assert Spoken(items) == [];
    } else {
      ProperOne(cr, false, cfg, s.secret, said, Entry(true, items[0]), p, p + 1);
      assert Spoken(items) == [Entry(true, items[0])];
    }
  }

  /** The items that are there, and no others. */
  predicate InFlight(cfg: Config, s: Server, k: Kind) {
    || (FirstThere(cfg, s) && k == KindOf(false, Entry(true, FirstItem(cfg, s))))
    || (SecondThere(cfg, s) && k == KindOf(false, Entry(true, SecondItem(cfg, s))))
    || (s.st.SendServerFinished? && k == KServerFinished)
  }

  lemma FlightHas(cr: Crypto, cfg: Config, s: Server, k: Kind)
    ensures Has(false, Spoken(Flight(cr, cfg, s)), k) <==> InFlight(cfg, s, k)
  {
    hide Has, KindOf, FirstThere, FirstItem, SecondThere, SecondItem, LastItem;
    assert [] + FirstItems(cfg, s) == FirstItems(cfg, s);
    FinishedKind(cr, cfg, s);
    HasNone(false, k);
    HasSent(false, [], FirstThere(cfg, s), FirstItem(cfg, s), k);
    HasSent(false, FirstItems(cfg, s), SecondThere(cfg, s), SecondItem(cfg, s), k);
    HasSent(false, TwoItems(cfg, s), s.st.SendServerFinished?, LastItem(cr, cfg, s), k);
  }

  lemma FinishedKind(cr: Crypto, cfg: Config, s: Server)
    ensures KindOf(false, Entry(true, LastItem(cr, cfg, s))) == KServerFinished
  {
    hide Hashed, SayAll;
  }

  lemma CertificateSkips(cr: Crypto, cfg: Config, s: Server, es: seq<Entry>)
    requires s.wait == Ok && s.st == SendServerCertificate && Plain(cr, cfg, s)
    requires forall k :: Has(false, es, k) <==> InFlight(cfg, s, k)
    ensures var s' := ServerCertificateStep(cfg, s);
            Place(cfg, s') == Place(cfg, s) + 2 && NothingSkipped(cfg, s, s', es) && NothingExtra(cfg, s', es)
  {
    hide Has, Moves, Rank, Update;
  }

  lemma HelloDoneSkips(cr: Crypto, cfg: Config, s: Server, es: seq<Entry>)
    requires s.wait == Ok && s.st == SendServerHelloDone && Plain(cr, cfg, s)
    requires forall k :: Has(false, es, k) <==> InFlight(cfg, s, k)
    ensures var s' := ServerHelloDoneStep(cfg, s);
            Place(cfg, s') == Place(cfg, s) + 2 && NothingSkipped(cfg, s, s', es) && NothingExtra(cfg, s', es)
  {
    hide Has, Moves, Rank, Update;
  }

  lemma FinishedPlaces(cr: Crypto, cfg: Config, s: Server)
    requires s.wait == Ok && s.st == SendServerFinished
    ensures var s' := ServerFinishedStep(cr, cfg, s);
            && Place(cfg, s') == Place(cfg, s) + 3 && Place(cfg, s) == Pos(cfg.neg.resumed, KTicket)
            && s'.certRequest == s.certRequest && s'.peerKey == s.peerKey
  {
    hide Moves, Rank, Update;
  }

  lemma FinishedSkips(cr: Crypto, cfg: Config, s: Server, es: seq<Entry>)
    requires s.wait == Ok && s.st == SendServerFinished
    requires forall k :: Has(false, es, k) <==> InFlight(cfg, s, k)
    ensures var s' := ServerFinishedStep(cr, cfg, s);
            Place(cfg, s') == Place(cfg, s) + 3 && NothingSkipped(cfg, s, s', es) && NothingExtra(cfg, s', es)
  {
    hide Has, ServerFinishedStep, Moves, Place, Pos;
    var s' := ServerFinishedStep(cr, cfg, s);
    FinishedPlaces(cr, cfg, s);
    assert InFlight(cfg, s, KServerCcs) && InFlight(cfg, s, KServerFinished) && (cfg.neg.ticket ==> InFlight(cfg, s, KTicket));
    forall k | Due(cfg, s', k) && Pos(cfg.neg.resumed, k) < Place(cfg, s')
      ensures (Due(cfg, s, k) && Pos(cfg.neg.resumed, k) < Place(cfg, s)) || Has(false, es, k)
    {
      LastPlaces(cfg.neg.resumed, k);
    }
  }

  lemma FlightSkips(cr: Crypto, cfg: Config, s: Server, inp: seq<Item>)
    requires s.wait == Ok && Plain(cr, cfg, s) && SendsMore(s.st)
    ensures var s', es := Do(cr, cfg, s, inp).0, Spoken(Flight(cr, cfg, s));
            && Place(cfg, s') == Place(cfg, s) + (if s.st.SendServerFinished? then 3 else 2)
            && NothingSkipped(cfg, s, s', es) && NothingExtra(cfg, s', es)
  {
    hide Plain, NothingSkipped, NothingExtra, Place, Flight, ServerCertificateStep, ServerHelloDoneStep, ServerFinishedStep,
      Has, InFlight, Moves, Rank;
    var es := Spoken(Flight(cr, cfg, s));
    forall k {
      FlightHas(cr, cfg, s, k);
    }
    match s.st {
      case SendServerCertificate => CertificateSkips(cr, cfg, s, es);
      case SendServerHelloDone => HelloDoneSkips(cr, cfg, s, es);
      case SendServerFinished => FinishedSkips(cr, cfg, s, es);
    }
  }

  lemma FlightPlain(cr: Crypto, cfg: Config, s: Server, inp: seq<Item>)
    requires s.wait == Ok && Plain(cr, cfg, s) && SendsMore(s.st)
    ensures var s' := Do(cr, cfg, s, inp).0;
            Plain(cr, cfg, s') && s'.secret == s.secret && s'.peerKey == s.peerKey && !SS.BeforeHash(s'.st)
  {
    hide Moves, Rank;
  }

  lemma FlightGood(cr: Crypto, cfg: Config, s: Server, inp: seq<Item>, said: Transcript)
    requires s.wait == Ok && Sound(cr, cfg, s, said) && SendsMore(s.st)
    ensures GoodResult(cr, cfg, s, inp, said, Do(cr, cfg, s, inp))
  {
    hide Do, Moves, Rank, Messages, Agrees, News, NothingSkipped, NothingExtra, Proper, Has, Plain, Place, Flight, SayAll;
    var s', items := Do(cr, cfg, s, inp).0, Flight(cr, cfg, s);
    FlightSent(cr, cfg, s, inp);
    FlightProper(cr, cfg, s, said);
    FlightSkips(cr, cfg, s, inp);
    FlightPlain(cr, cfg, s, inp);
    SayAllAgrees(s.h, items, said);
    NewsSpoken(s.out, inp, items);
  }

  lemma DoGood(cr: Crypto, cfg: Config, s: Server, inp: seq<Item>, said: Transcript)
    requires s.wait == Ok && Sound(cr, cfg, s, said) && HelloThere(s, inp)
    ensures GoodResult(cr, cfg, s, inp, said, Do(cr, cfg, s, inp))
  {
    hide Sound, GoodResult, HelloThere, SelectParametersStep, ServerHelloStep, ServerKeyExchangeStep, ClientCertificateStep,
      ClientKeyExchangeStep, CertificateVerifyStep, NextProtoStep, ChannelIdStep, ClientFinishedStep;
    match s.st {
      case SelectParameters => SelectParametersGood(cr, cfg, s, inp, said);
      case SendServerHello => ServerHelloGood(cr, cfg, s, inp, said);
      case SendServerKeyExchange => ServerKeyExchangeGood(cr, cfg, s, inp, said);
      case SendServerCertificate | SendServerHelloDone | SendServerFinished => FlightGood(cr, cfg, s, inp, said);
      case ReadClientCertificate => ClientCertificateGood(cr, cfg, s, inp, said);
      case ReadClientKeyExchange => ClientKeyExchangeGood(cr, cfg, s, inp, said);
      case ReadClientCertificateVerify => CertificateVerifyGood(cr, cfg, s, inp, said);
      case ReadNextProto => NextProtoGood(cr, cfg, s, inp, said);
      case ReadChannelId => ChannelIdGood(cr, cfg, s, inp, said);
      case ReadClientFinished => ClientFinishedGood(cr, cfg, s, inp, said);
      case _ => InternalGood(cr, cfg, s, inp, said);
    }
  }

  // ---------------------------------------------------------------- whole runs

  /** Everything that is known of the server and its log, whoever the peer is. */
  predicate Good(cr: Crypto, cfg: Config, s: Server, log: seq<Entry>) {
    && Sound(cr, cfg, s, Messages(log))
    && Proper(cr, false, cfg, s.secret, [], log, 0, Place(cfg, s))
    && (forall k :: Due(cfg, s, k) && Pos(cfg.neg.resumed, k) < Place(cfg, s) ==> Has(false, log, k))
    && NothingExtra(cfg, s, log)
    && (s.peerKey <==> CERTIFIED in log)
  }

  lemma StepSound(cr: Crypto, cfg: Config, s: Server, log: seq<Entry>, s': Server, es: seq<Entry>)
    requires Good(cr, cfg, s, log) && GoodStep(cr, cfg, s, Messages(log), s', es)
    ensures Good(cr, cfg, s', log + es)
  {
    hide Proper, Has, Messages, Place, Due, Agrees, Plain, Pos;
    if s.secret != s'.secret {
      ProperSecret(cr, false, cfg, s.secret, s'.secret, [], log, 0, Place(cfg, s));
    }
    MessagesConcat(log, es);
    assert [] + Messages(log) == Messages(log);
    ProperConcat(cr, false, cfg, s'.secret, [], log, es, 0, Place(cfg, s), Place(cfg, s'));
    forall k
      ensures Due(cfg, s', k) && Pos(cfg.neg.resumed, k) < Place(cfg, s') ==> Has(false, log + es, k)
      ensures Has(false, log + es, k) ==> Due(cfg, s', k)
    {
      HasConcat(false, log, es, k);
      StillDue(cfg, s, s', k);
    }
  }

  lemma StillDue(cfg: Config, s: Server, s': Server, k: Kind)
    requires s.peerKey ==> s'.peerKey
    ensures Due(cfg, s, k) ==> Due(cfg, s', k)
  {
  }

  lemma RunsGood(cr: Crypto, cfg: Config, s: Server, inp: seq<Item>, log: seq<Entry>)
    requires s.wait == Ok && Good(cr, cfg, s, log) && HelloThere(s, inp)
    ensures var r := Do(cr, cfg, s, inp);
            Good(cr, cfg, r.0, log + News(s.out, inp, r.0.out, r.1)) && HelloThere(r.0, r.1)
  {
    hide Do, News, Plain, Agrees, Proper, GoodStep, Has, Place, Due, Pos, Messages;
    DoGood(cr, cfg, s, inp, Messages(log));
    var r := Do(cr, cfg, s, inp);
    StepSound(cr, cfg, s, log, r.0, News(s.out, inp, r.0.out, r.1));
  }

  lemma WakesGood(cr: Crypto, cfg: Config, s: Server, inp: seq<Item>, log: seq<Entry>)
    requires s.wait == ReadCcs && Good(cr, cfg, s, log) && inp != [] && inp[0].ChangeCipherSpec?
    ensures Good(cr, cfg, s.(wait := Ok), log + News(s.out, inp, s.out, inp[1..])) && s.st == ProcessChangeCipherSpec
  {
    hide News, Agrees, Proper, GoodStep, Has, Place, Due, Pos, Messages;
    CcsGood(cr, cfg, s, inp, Messages(log));
    StepSound(cr, cfg, s, log, s.(wait := Ok), News(s.out, inp, s.out, inp[1..]));
  }

  /** Writing and failing change neither the log nor what is known; nor does the end of a wait for a message or a write. */
  lemma QuietGood(cr: Crypto, cfg: Config, s: Server, log: seq<Entry>, s': Server)
    requires Good(cr, cfg, s, log) && s' == s.(wait := s'.wait, out := s'.out) && s.wait != Ok
    requires s'.wait == s.wait || s'.wait == Failed || (s'.wait == Ok && (s.wait == Flush || s.wait == ReadMessage))
    ensures Good(cr, cfg, s', log)
  {
    hide Proper, Has, Messages, Agrees, Pos;
    assert Place(cfg, s') == Place(cfg, s) && forall k :: Due(cfg, s, k) == Due(cfg, s', k);
  }

  lemma StepGood(cr: Crypto, cfg: Config, a: Alone, e: Event)
    requires Good(cr, cfg, a.s, a.log) && HelloThere(a.s, a.inbox)
    ensures var b := Step(cr, cfg, a, e); Good(cr, cfg, b.s, b.log) && HelloThere(b.s, b.inbox)
  {
    hide Good, Do, News;
    if e.Move? {
      var p := StepServer(cr, cfg, Pair(C.Start(), a.s, a.inbox, []));
      var woken := a.s.(wait := Ok);
      if a.s.wait == Ok {
        RunsGood(cr, cfg, a.s, a.inbox, a.log);
      } else if a.s.wait == ReadMessage && a.inbox != [] && a.inbox[0].Handshake? {
        QuietGood(cr, cfg, a.s, a.log, woken);
        RunsGood(cr, cfg, woken, a.inbox, a.log);
      } else if a.s.wait == ReadCcs && a.inbox != [] && a.inbox[0].ChangeCipherSpec? {
        WakesGood(cr, cfg, a.s, a.inbox, a.log);
      } else {
        QuietGood(cr, cfg, a.s, a.log, p.s);
        QuietNews(cr, cfg, a);
        assert a.log + [] == a.log;
      }
    }
  }

  lemma QuietNews(cr: Crypto, cfg: Config, a: Alone)
    requires a.s.wait != Ok && !(a.s.wait == ReadMessage && a.inbox != [] && a.inbox[0].Handshake?)
    requires !(a.s.wait == ReadCcs && a.inbox != [] && a.inbox[0].ChangeCipherSpec?)
    ensures var p := StepServer(cr, cfg, Pair(C.Start(), a.s, a.inbox, []));
            News(a.s.out, a.inbox, p.s.out, p.toServer) == [] && p.toServer == a.inbox
  {
    hide Do;
  }

  lemma {:induction false} ExecGood(cr: Crypto, cfg: Config, events: seq<Event>)
    ensures var a := Exec(cr, cfg, events); Good(cr, cfg, a.s, a.log) && HelloThere(a.s, a.inbox)
    decreases |events|
  {
    if events == [] {
      StartGood(cr, cfg);
    } else {
      hide Good, Step, HelloThere;
      ExecGood(cr, cfg, events[..|events| - 1]);
      StepGood(cr, cfg, Exec(cr, cfg, events[..|events| - 1]), events[|events| - 1]);
    }
  }

  lemma StartGood(cr: Crypto, cfg: Config)
    ensures Good(cr, cfg, TlsServer.Start(), [])
  {
  }

  /**
   Whatever arrives from whoever: the transcript is what was said and heard, in order, from the right side and
   nothing twice; every Finished in it is the MAC of all that went before under the server's secret, which is the
   session's or derived from all up to the ClientKeyExchange, and every signature and channel ID that came in is over
   all that went before it. Nothing is there that is not due, so a certificate is only asked for under a cipher that
   has certificates. If the server gets to its end, nothing that is due is missing, behind the peer's
   ChangeCipherSpec the peer's Finished has come, and a client whose certificate was taken in has signed. The
   transcript is kept in full exactly while a signature over it may have to be checked.
   */
  lemma AgainstAnyPeer(cr: Crypto, cfg: Config, events: seq<Event>)
    ensures var a := Exec(cr, cfg, events);
            && Agrees(a.s.h, Messages(a.log))
            && Proper(cr, false, cfg, a.s.secret, [], a.log, 0, NOWHERE)
            && (forall k :: Has(false, a.log, k) ==> Due(cfg, a.s, k))
            && (a.s.h.buffer.Some? <==> SS.BeforeHash(a.s.st) || MayCheck(a.s))
            && (Has(false, a.log, KCertRequest) ==> cfg.certRequest && cfg.neg.certAuth && !cfg.neg.resumed)
            && (a.s.st == Done ==>
                  && (forall k :: Due(cfg, a.s, k) && Pos(cfg.neg.resumed, k) < NOWHERE ==> Has(false, a.log, k))
                  && Keyed(cr, false, cfg.neg.resumed, a.s.secret, a.log)
                  && exists i, j :: 0 <= i < j < |a.log|
                       && a.log[i] == Entry(false, ChangeCipherSpec)
                       && a.log[j] == Entry(false, Item.Handshake(Finished(cr.mac(a.s.secret, Messages(a.log[..j]), false)))))
            && (a.s.st == Done && CERTIFIED in a.log ==>
                  exists j :: 0 <= j < |a.log| && Signed(cr, Messages(a.log[..j]), a.log[j]))
  {
    hide Exec, Proper, Has, Messages, Agrees, Due, Pos, Place, Keyed, MayCheck, Awaited;
    ExecGood(cr, cfg, events);
    var a := Exec(cr, cfg, events);
    Bounds(cr, cfg, a.s, a.log);
    NeverAsked(cr, cfg, a.s, a.log);
    if a.s.st == Done {
      AtTheEnd(cfg, a.s);
      BehindCcs(cr, false, cfg, a.s.secret, a.log, false, Place(cfg, a.s));
      KeyThere(cr, false, cfg, a.s.secret, a.log, Place(cfg, a.s));
      if CERTIFIED in a.log {
        SignatureThere(cr, cfg, a.s, a.log);
      }
    }
  }

  lemma NeverAsked(cr: Crypto, cfg: Config, s: Server, log: seq<Entry>)
    requires Good(cr, cfg, s, log) && Proper(cr, false, cfg, s.secret, [], log, 0, NOWHERE)
    ensures Has(false, log, KCertRequest) ==> cfg.certRequest && cfg.neg.certAuth && !cfg.neg.resumed
  {
    hide Messages, Plain, Agrees, Proves, Proven;
    if Has(false, log, KCertRequest) {
      var i :| 0 <= i < |log| && KindOf(false, log[i]) == KCertRequest;
      assert Pos(cfg.neg.resumed, KindOf(false, log[i])) < NOWHERE;
    }
  }

  /** A signature of the peer over everything before. */
  predicate Signed(cr: Crypto, before: Transcript, e: Entry) {
    !e.sent && e.item.Handshake? && e.item.m.CertificateVerify? && cr.check(before, e.item.m.sig)
  }

  lemma SignatureThere(cr: Crypto, cfg: Config, s: Server, log: seq<Entry>)
    requires Good(cr, cfg, s, log) && s.st == Done && s.peerKey
    ensures exists j :: 0 <= j < |log| && Signed(cr, Messages(log[..j]), log[j])
  {
    hide Messages, Plain, Agrees, Proves;
    assert Due(cfg, s, KCertVerify) && CERTIFIED in log;
    var i :| 0 <= i < |log| && log[i] == CERTIFIED;
    assert Pos(cfg.neg.resumed, KindOf(false, log[i])) < NOWHERE;
    var j :| 0 <= j < |log| && KindOf(false, log[j]) == KCertVerify;
    assert [] + Messages(log[..j]) == Messages(log[..j]);
    SignatureIs(cr, cfg, s.secret, Messages(log[..j]), log[j]);
  }

  lemma SignatureIs(cr: Crypto, cfg: Config, secret: nat, before: Transcript, e: Entry)
    requires Proves(cr, false, cfg, secret, before, e) && KindOf(false, e) == KCertVerify && !e.sent
    ensures Signed(cr, before, e)
  {
  }

  lemma Bounds(cr: Crypto, cfg: Config, s: Server, log: seq<Entry>)
    requires Proper(cr, false, cfg, s.secret, [], log, 0, Place(cfg, s))
    ensures Proper(cr, false, cfg, s.secret, [], log, 0, NOWHERE)
  {
    hide Proves, KindOf, FromClient, Pos, Messages;
    assert Place(cfg, s) <= NOWHERE;
  }

  // ---------------------------------------------------------------- nothing is refused without a cause

  /** The message or ChangeCipherSpec belongs here: it is due, is right, and nothing that is due comes before it. */
  predicate Acceptable(cr: Crypto, cfg: Config, s: Server, said: Transcript, e: Entry) {
    var k := KindOf(false, e);
    && !e.sent && FromClient(k) && Place(cfg, s) <= Pos(cfg.neg.resumed, k) < NOWHERE && Due(cfg, s, k)
    && (k == KClientKey || Proves(cr, false, cfg, s.secret, said, e))
    && forall k' :: Due(cfg, s, k') && Place(cfg, s) <= Pos(cfg.neg.resumed, k') ==>
         Pos(cfg.neg.resumed, k) <= Pos(cfg.neg.resumed, k')
  }

  lemma AwaitedIsDue(cr: Crypto, cfg: Config, s: Server, inp: seq<Item>, said: Transcript)
    requires s.wait == Ok && Sound(cr, cfg, s, said) && HelloThere(s, inp) && Do(cr, cfg, s, inp).0.wait == Failed
    ensures Front(inp).Some? && Reads(s.st) && Due(cfg, s, Awaited(s.st))
    ensures Place(cfg, s) == Pos(cfg.neg.resumed, Awaited(s.st))
  {
    hide Moves, Rank, Update, InitHash, FreeBuffer, Hashed;
  }

  lemma NotAwaited(cr: Crypto, cfg: Config, s: Server, said: Transcript, e: Entry)
    requires Due(cfg, s, Awaited(s.st)) && Place(cfg, s) == Pos(cfg.neg.resumed, Awaited(s.st))
    requires KindOf(false, e) != Awaited(s.st)
    ensures !Acceptable(cr, cfg, s, said, e)
  {
    hide Proves, KindOf, Place, Pos, Due, FromClient, Awaited;
    if Acceptable(cr, cfg, s, said, e) {
      PosInjective(cfg.neg.resumed, KindOf(false, e), Awaited(s.st));
    }
  }

  /** What is awaited is refused only if it is not right. */
  lemma WrongProof(cr: Crypto, cfg: Config, s: Server, inp: seq<Item>, said: Transcript)
    requires s.wait == Ok && Sound(cr, cfg, s, said) && Reads(s.st) && Do(cr, cfg, s, inp).0.wait == Failed && Front(inp).Some?
    requires KindOf(false, Entry(false, inp[0])) == Awaited(s.st)
    ensures s.st != ReadClientKeyExchange && !Proves(cr, false, cfg, s.secret, said, Entry(false, inp[0]))
  {
    hide Moves, Rank, Update, InitHash, FreeBuffer, Only, Place, Pos;
  }

  lemma DoForCause(cr: Crypto, cfg: Config, s: Server, inp: seq<Item>, said: Transcript)
    requires s.wait == Ok && Sound(cr, cfg, s, said) && HelloThere(s, inp) && Do(cr, cfg, s, inp).0.wait == Failed
    ensures inp != [] && !Acceptable(cr, cfg, s, said, Entry(false, inp[0]))
  {
    hide Do, KindOf, Proves, Sound, Due, Place, Pos, FromClient;
    AwaitedIsDue(cr, cfg, s, inp, said);
    if KindOf(false, Entry(false, inp[0])) == Awaited(s.st) {
      WrongProof(cr, cfg, s, inp, said);
    } else {
      NotAwaited(cr, cfg, s, said, Entry(false, inp[0]));
    }
  }

  lemma WaitForCause(cr: Crypto, cfg: Config, s: Server, said: Transcript, item: Item)
    requires Sound(cr, cfg, s, said)
    requires (s.wait == ReadMessage && item.ChangeCipherSpec?) || (s.wait == ReadCcs && item.Handshake?)
    ensures !Acceptable(cr, cfg, s, said, Entry(false, item))
  {
    hide Agrees, Proves;
    assert item.ChangeCipherSpec? ==> KindOf(false, Entry(false, item)) == KClientCcs;
    assert Due(cfg, s, Awaited(s.st)) && Place(cfg, s) == Pos(cfg.neg.resumed, Awaited(s.st));
  }

  lemma WokenSame(cr: Crypto, cfg: Config, s: Server, said: Transcript, e: Entry)
    requires s.wait == ReadMessage && Sound(cr, cfg, s, said)
    ensures Sound(cr, cfg, s.(wait := Ok), said)
    ensures Acceptable(cr, cfg, s, said, e) == Acceptable(cr, cfg, s.(wait := Ok), said, e)
  {
    hide Agrees, Proves, Pos;
    var woken := s.(wait := Ok);
    assert Place(cfg, woken) == Place(cfg, s) && forall k :: Due(cfg, woken, k) == Due(cfg, s, k);
  }

  /**
   However a run has gone: the server fails only over a message or a ChangeCipherSpec that does not belong there, is
   not right, or comes while something is still due.
   */
  lemma RefusedForCause(cr: Crypto, cfg: Config, events: seq<Event>)
    ensures var a := Exec(cr, cfg, events);
            a.s.wait != Failed && Step(cr, cfg, a, Move).s.wait == Failed ==>
              a.inbox != [] && !Acceptable(cr, cfg, a.s, Messages(a.log), Entry(false, a.inbox[0]))
  {
    hide Exec, Acceptable, Messages, Do, Sound, Proper, HelloThere;
    var a := Exec(cr, cfg, events);
    ExecGood(cr, cfg, events);
    if a.s.wait != Failed && Step(cr, cfg, a, Move).s.wait == Failed {
      if a.s.wait == Ok {
        DoForCause(cr, cfg, a.s, a.inbox, Messages(a.log));
      } else if a.s.wait == ReadMessage && a.inbox[0].Handshake? {
        WokenSame(cr, cfg, a.s, Messages(a.log), Entry(false, a.inbox[0]));
        HelloStill(a.s, a.inbox);
        DoForCause(cr, cfg, a.s.(wait := Ok), a.inbox, Messages(a.log));
      } else {
        WaitForCause(cr, cfg, a.s, Messages(a.log), a.inbox[0]);
      }
    }
  }

  lemma HelloStill(s: Server, inp: seq<Item>)
    requires HelloThere(s, inp)
    ensures HelloThere(s.(wait := Ok), inp)
  {
  }

  /** At the end every message that has a place lies behind the server. */
  lemma AtTheEnd(cfg: Config, s: Server)
    requires s.st == Done
    ensures forall k :: Pos(cfg.neg.resumed, k) < NOWHERE ==> Pos(cfg.neg.resumed, k) < Place(cfg, s)
    ensures Due(cfg, s, KClientCcs) && Due(cfg, s, KClientFinished)
    ensures Due(cfg, s, KServerHello) && Due(cfg, s, KClientKey)
    ensures Pos(cfg.neg.resumed, if cfg.neg.resumed then KServerHello else KClientKey) < NOWHERE
    ensures Pos(cfg.neg.resumed, KClientCcs) < NOWHERE && Pos(cfg.neg.resumed, KClientFinished) < NOWHERE
  {
  }
}
