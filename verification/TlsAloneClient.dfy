/**
 The client against any peer: whatever arrives and whenever, what it takes in and says is in order, nothing
 that is due is skipped, its transcript is exactly that, and every Finished is right; it is done only after the
 peer's ChangeCipherSpec and the peer's Finished.
 */
module TlsAloneClient {
  import opened Prelude
  import opened TlsScript
  import opened TlsEndpoint
  import opened TlsClient
  import opened TlsOrder
  import opened TlsPair
  import CS = TlsClientSteps
  import S = TlsServer

  /** The client, what has arrived from whoever is there, and what has been taken in and said. */
  datatype Alone = Alone(c: Client, inbox: seq<Item>, log: seq<Entry>)

  datatype Event = Deliver(item: Item) | Move

  function Step(cr: Crypto, cfg: Config, a: Alone, e: Event): Alone {
    match e
    case Deliver(item) => a.(inbox := a.inbox + [item])
    case Move =>
      var p := StepClient(cr, cfg, Pair(a.c, S.Start(), [], a.inbox));
      Alone(p.c, p.toClient, a.log + News(a.c.out, a.inbox, p.c.out, p.toClient))
  }

  function Exec(cr: Crypto, cfg: Config, events: seq<Event>): Alone {
    if events == [] then Alone(TlsClient.Start(), [], [])
    else Step(cr, cfg, Exec(cr, cfg, events[..|events| - 1]), events[|events| - 1])
  }

  /** The place in the order that the client has got to. A failure leaves it in front of a ChangeCipherSpec it waits for. */
  function Place(c: Client): nat {
    CS.Place(Choices(false, c.neg), c.st, if c.wait == Failed then ReadCcs else c.wait)
  }

  /** What the client knows of the choices: its own certificate, and what the ServerHello said. */
  function Choices(hasCert: bool, neg: Negotiated): Config {
    Config(neg, false, false, false, hasCert)
  }

  /** What may not be missing. */
  predicate Due(c: Client, hasCert: bool, k: Kind) {
    match k
    case KServerCert => c.neg.certAuth
    case KServerKey => c.neg.requiresSke
    case KClientCert => c.certRequest
    case KCertVerify => c.certRequest && hasCert
    case KNextProto => c.neg.npn
    case KChannelId => c.neg.channelId
    case KTicket => c.neg.ticket
    case KStatus | KCertRequest => false
    case _ => true
  }

  /** What may be there at all. */
  predicate May(c: Client, hasCert: bool, k: Kind) {
    match k
    case KStatus => c.neg.status
    case KServerKey => c.neg.requiresSke || !c.neg.certAuth
    case KCertRequest => c.neg.certAuth
    case _ => Due(c, hasCert, k)
  }

  predicate CertSent(st: State) {
    st.SendClientKeyExchange? || st.SendClientCertificateVerify?
  }

  /** The transcript may yet have to be signed. */
  predicate MaySign(hasCert: bool, c: Client) {
    CS.FullOnly(c.st) && if CS.RequestUnknown(c.st) then c.neg.certAuth else c.certRequest && (hasCert || !CertSent(c.st))
  }

  /** What the states say about the client's other fields. */
  predicate Plain(hasCert: bool, c: Client) {
    && (CS.BeforeHello(c.st) ==> c.neg == NothingYet())
    && (CS.FullOnly(c.st) ==> !c.neg.resumed)
    && (CS.RequestUnknown(c.st) ==> !c.certRequest)
    && (CS.BeforeHello(c.st) || CS.TicketAhead(Choices(false, c.neg), c.st) ==> c.ticketExpected == c.neg.ticket)
    && (CS.BeforeHello(c.st) || MaySign(hasCert, c) <==> c.h.buffer.Some?)
    && (c.wait == ReadCcs ==> c.st.ProcessChangeCipherSpec?)
    && (c.wait == Flush ==> c.st.EnterEarlyData? || c.st.FinishFlight?)
    && (c.wait == ReadMessage ==> Reads(c.st) && (c.st.ReadSessionTicket? ==> c.ticketExpected))
  }

  predicate Sound(hasCert: bool, c: Client, said: Transcript) {
    Plain(hasCert, c) && Agrees(c.h, said) && (CS.BeforeHello(c.st) <==> c.h.hash.None?)
  }

  /** What is due by now was due before or is one of these kinds. */
  predicate Only(hasCert: bool, c: Client, c': Client, ks: set<Kind>) {
    forall k :: Due(c', hasCert, k) && Pos(c'.neg.resumed, k) < Place(c') ==>
      (Due(c, hasCert, k) && Pos(c'.neg.resumed, k) < Place(c)) || k in ks
  }

  /** What is due by now was due before or is among the news. */
  predicate NothingSkipped(hasCert: bool, c: Client, c': Client, es: seq<Entry>) {
    forall k :: Due(c', hasCert, k) && Pos(c'.neg.resumed, k) < Place(c') ==>
      (Due(c, hasCert, k) && Pos(c'.neg.resumed, k) < Place(c)) || Has(true, es, k)
  }

  /** A ticket that is not empty. */
  const TICKET := Entry(false, Item.Handshake(NewSessionTicket(false)))

  /** The place for a ticket lies behind the client. */
  predicate PastTicket(c: Client) {
    !CS.BeforeHello(c.st) && !CS.TicketAhead(Choices(false, c.neg), c.st)
  }

  /** Behind that place the client knows whether it has one. */
  predicate Noted(c: Client, c': Client, ticket: bool) {
    && (PastTicket(c) ==> PastTicket(c')) && (ticket ==> !PastTicket(c) && PastTicket(c'))
    && (PastTicket(c') ==> c'.ticketExpected == (ticket || (PastTicket(c) && c.ticketExpected)))
  }

  /** Nothing is among the news that may not be there. */
  predicate NothingExtra(hasCert: bool, c': Client, es: seq<Entry>) {
    forall k :: Has(true, es, k) ==> May(c', hasCert, k)
  }

  /** The ServerHello settles what was negotiated, and the secret too or, in a full handshake, the ClientKeyExchange. */
  predicate Settled(c: Client, c': Client) {
    || (c.neg == c'.neg && (c.secret == c'.secret || Free(c.neg.resumed, Place(c))))
    || (CS.BeforeHello(c.st) && Place(c) == 1)
  }

  /** Everything about one step of the state machine, without the past. */
  predicate GoodStep(cr: Crypto, hasCert: bool, c: Client, said: Transcript, c': Client, es: seq<Entry>) {
    && Sound(hasCert, c', said + Messages(es))
    && Place(c) <= Place(c')
    && Proper(cr, true, Choices(hasCert, c'.neg), c'.secret, said, es, Place(c), Place(c'))
    && Settled(c, c')
    && NothingSkipped(hasCert, c, c', es)
    && NothingExtra(hasCert, c', es)
    && c'.certRequest == (c.certRequest || Has(true, es, KCertRequest))
    && Noted(c, c', TICKET in es)
  }

  /** A step with its result, what it took in and said read off from it. */
  predicate GoodResult(cr: Crypto, hasCert: bool, c: Client, inp: seq<Item>, said: Transcript, r: (Client, seq<Item>)) {
    GoodStep(cr, hasCert, c, said, r.0, News(c.out, inp, r.0.out, r.1))
  }

  // ---------------------------------------------------------------- one message at most

  /** A step may say and hear nothing. */
  predicate Stays(hasCert: bool, c: Client, said: Transcript, c': Client) {
    && Sound(hasCert, c', said) && Place(c) <= Place(c') && c.neg == c'.neg && c.secret == c'.secret && Only(hasCert, c, c', {})
    && c.certRequest == c'.certRequest && Noted(c, c', false)
  }

  /** A step may say or hear one thing. */
  predicate Fits(cr: Crypto, hasCert: bool, c: Client, said: Transcript, c': Client, e: Entry) {
    var k := KindOf(true, e);
    && Sound(hasCert, c', After(said, e.item)) && Settled(c, c') && Only(hasCert, c, c', {k})
    && Place(c) <= Pos(c'.neg.resumed, k) < Place(c') && e.sent == FromClient(k)
    && Proves(cr, true, Choices(hasCert, c'.neg), c'.secret, said, e)
    && May(c', hasCert, k) && c'.certRequest == (c.certRequest || k == KCertRequest)
    && Noted(c, c', e == TICKET)
  }

  /** A step that stays, or passes one place: with what belongs there or, if that is not due, without. */
  lemma Passes(hasCert: bool, c: Client, c': Client, k: Kind, there: bool)
    requires c.neg == c'.neg && (c.certRequest == c'.certRequest || Place(c') <= Pos(c.neg.resumed, KClientCert))
    requires Place(c') == Place(c) || (Place(c') == Place(c) + 1 && Place(c) == Pos(c.neg.resumed, k) < NOWHERE)
    requires Place(c') == Place(c) || there || !Due(c', hasCert, k)
    ensures Only(hasCert, c, c', if there then {k} else {})
  {
    hide Place, Pos;
    CertPlaces(c.neg.resumed);
    forall k' | Due(c', hasCert, k') && Pos(c'.neg.resumed, k') < Place(c')
      ensures (Due(c, hasCert, k') && Pos(c'.neg.resumed, k') < Place(c)) || (there && k' == k)
    {
      if Pos(c'.neg.resumed, k') == Place(c) {
        PosInjective(c.neg.resumed, k, k');
      }
    }
  }

  lemma CertPlaces(resumed: bool)
    ensures Pos(resumed, KClientCert) <= Pos(resumed, KCertVerify)
  {
  }

  lemma StaysGood(cr: Crypto, hasCert: bool, c: Client, said: Transcript, c': Client)
    requires Stays(hasCert, c, said, c')
    ensures GoodStep(cr, hasCert, c, said, c', [])
  {
    hide Sound, Place, Due, May, Pos, Proper, Noted;
    ProperNone(cr, true, Choices(hasCert, c'.neg), c'.secret, said, Place(c), Place(c'));
    MessagesOne(said, Entry(true, ChangeCipherSpec));
  }

  lemma FitsGood(cr: Crypto, hasCert: bool, c: Client, said: Transcript, c': Client, e: Entry)
    requires Fits(cr, hasCert, c, said, c', e)
    ensures GoodStep(cr, hasCert, c, said, c', [e])
  {
    hide Sound, Place, Due, May, Pos, Proper, Noted, KindOf, FromClient, Proves, Settled, Messages, Has;
    ProperOne(cr, true, Choices(hasCert, c'.neg), c'.secret, said, e, Place(c), Place(c'));
    MessagesOne(said, e);
    HasOne(true, e);
  }

  /** A step that takes the front of the input at most. */
  lemma TakesFront(cr: Crypto, hasCert: bool, c: Client, inp: seq<Item>, said: Transcript, r: (Client, seq<Item>))
    requires r.0.out == c.out && (r.1 == inp || (inp != [] && r.1 == inp[1..]))
    requires r.1 == inp ==> Stays(hasCert, c, said, r.0)
    requires r.1 != inp ==> Fits(cr, hasCert, c, said, r.0, Entry(false, inp[0]))
    ensures GoodResult(cr, hasCert, c, inp, said, r)
  {
    hide Stays, Fits, GoodStep, News;
    NewsRead(c.out, inp);
    if r.1 == inp {
      StaysGood(cr, hasCert, c, said, r.0);
    } else {
      FitsGood(cr, hasCert, c, said, r.0, Entry(false, inp[0]));
    }
  }

  /** A step that adds one message to the flight. */
  lemma SaysOne(cr: Crypto, hasCert: bool, c: Client, inp: seq<Item>, said: Transcript, c': Client, m: Message)
    requires c'.out == c.out + [Item.Handshake(m)] && Fits(cr, hasCert, c, said, c', Entry(true, Item.Handshake(m)))
    ensures GoodResult(cr, hasCert, c, inp, said, (c', inp))
  {
    hide Fits, GoodStep, News;
    NewsSpoken(c.out, inp, [Item.Handshake(m)]);
    assert Spoken([Item.Handshake(m)]) == [Entry(true, Item.Handshake(m))];
    FitsGood(cr, hasCert, c, said, c', Entry(true, Item.Handshake(m)));
  }

  lemma ServerHelloGood(cr: Crypto, hasCert: bool, c: Client, inp: seq<Item>, said: Transcript)
    requires c.wait == Ok && Sound(hasCert, c, said) && c.st == ReadServerHello
    ensures GoodResult(cr, hasCert, c, inp, said, ServerHelloStep(cr, c, inp))
  {
    hide GoodResult, Moves, Rank;
    TakesFront(cr, hasCert, c, inp, said, ServerHelloStep(cr, c, inp));
  }

  lemma ServerCertificateGood(cr: Crypto, hasCert: bool, c: Client, inp: seq<Item>, said: Transcript)
    requires c.wait == Ok && Sound(hasCert, c, said) && c.st == ReadServerCertificate
    ensures GoodResult(cr, hasCert, c, inp, said, ServerCertificateStep(c, inp))
  {
    hide GoodResult, Moves, Rank, Agrees, Update, FreeBuffer, Only, Hashed;
    var r := ServerCertificateStep(c, inp);
    if Front(inp).Some? {
      UpdateAgrees(c.h, said, inp[0].m);
    }
    Passes(hasCert, c, r.0, KServerCert, r.1 != inp);
    TakesFront(cr, hasCert, c, inp, said, r);
  }

  lemma CertificateStatusGood(cr: Crypto, hasCert: bool, c: Client, inp: seq<Item>, said: Transcript)
    requires c.wait == Ok && Sound(hasCert, c, said) && c.st == ReadCertificateStatus
    ensures GoodResult(cr, hasCert, c, inp, said, CertificateStatusStep(c, inp))
  {
    hide GoodResult, Moves, Rank, Agrees, Update, FreeBuffer, Only, Hashed;
    var r := CertificateStatusStep(c, inp);
    if Front(inp).Some? {
      UpdateAgrees(c.h, said, inp[0].m);
    }
    Passes(hasCert, c, r.0, KStatus, r.1 != inp);
    TakesFront(cr, hasCert, c, inp, said, r);
  }

  lemma ServerKeyExchangeGood(cr: Crypto, hasCert: bool, c: Client, inp: seq<Item>, said: Transcript)
    requires c.wait == Ok && Sound(hasCert, c, said) && c.st == ReadServerKeyExchange
    ensures GoodResult(cr, hasCert, c, inp, said, ServerKeyExchangeStep(c, inp))
  {
    hide GoodResult, Moves, Rank, Agrees, Update, FreeBuffer, Only, Hashed;
    var r := ServerKeyExchangeStep(c, inp);
    if Front(inp).Some? {
      UpdateAgrees(c.h, said, inp[0].m);
    }
    Passes(hasCert, c, r.0, KServerKey, r.1 != inp);
    TakesFront(cr, hasCert, c, inp, said, r);
  }

  lemma CertificateRequestGood(cr: Crypto, hasCert: bool, c: Client, inp: seq<Item>, said: Transcript)
    requires c.wait == Ok && Sound(hasCert, c, said) && c.st == ReadCertificateRequest
    ensures GoodResult(cr, hasCert, c, inp, said, CertificateRequestStep(c, inp))
  {
    hide GoodResult, Moves, Rank, Agrees, Update, FreeBuffer, Only, Hashed;
    var r := CertificateRequestStep(c, inp);
    if Front(inp).Some? {
      UpdateAgrees(c.h, said, inp[0].m);
    }
    Passes(hasCert, c, r.0, KCertRequest, r.1 != inp);
    TakesFront(cr, hasCert, c, inp, said, r);
  }

  lemma ServerHelloDoneGood(cr: Crypto, hasCert: bool, c: Client, inp: seq<Item>, said: Transcript)
    requires c.wait == Ok && Sound(hasCert, c, said) && c.st == ReadServerHelloDone
    ensures GoodResult(cr, hasCert, c, inp, said, ServerHelloDoneStep(c, inp))
  {
    hide GoodResult, Moves, Rank, Agrees, Update, FreeBuffer, Only, Hashed;
    var r := ServerHelloDoneStep(c, inp);
    if Front(inp).Some? {
      UpdateAgrees(c.h, said, inp[0].m);
    }
    Passes(hasCert, c, r.0, KHelloDone, r.1 != inp);
    TakesFront(cr, hasCert, c, inp, said, r);
  }

  lemma SessionTicketGood(cr: Crypto, hasCert: bool, c: Client, inp: seq<Item>, said: Transcript)
    requires c.wait == Ok && Sound(hasCert, c, said) && c.st == ReadSessionTicket
    ensures GoodResult(cr, hasCert, c, inp, said, SessionTicketStep(c, inp))
  {
    hide GoodResult, Moves, Rank, Agrees, Update, FreeBuffer, Only, Hashed, Fits, Stays;
    var r := SessionTicketStep(c, inp);
    if Front(inp).Some? {
      UpdateAgrees(c.h, said, inp[0].m);
    }
    Passes(hasCert, c, r.0, KTicket, r.1 != inp);
    if r.1 == inp {
      TicketStays(hasCert, c, said, r.0);
    } else {
      TicketFits(cr, hasCert, c, said, r.0, inp[0]);
    }
    TakesFront(cr, hasCert, c, inp, said, r);
  }

  lemma TicketStays(hasCert: bool, c: Client, said: Transcript, c': Client)
    requires Sound(hasCert, c, said) && c.st == ReadSessionTicket && c.wait == Ok && Only(hasCert, c, c', {})
    requires if c'.wait == ReadMessage then c.ticketExpected else c'.wait == Failed || !c.ticketExpected
    requires (c' == c.(wait := c'.wait) && c'.wait in {ReadMessage, Failed}) || c' == Goto(c, ProcessChangeCipherSpec, ReadCcs)
    ensures Stays(hasCert, c, said, c')
  {
    hide Agrees, Only;
  }

  lemma TicketFits(cr: Crypto, hasCert: bool, c: Client, said: Transcript, c': Client, item: Item)
    requires Sound(hasCert, c, said) && c.st == ReadSessionTicket && c.wait == Ok && item.Handshake? && item.m.NewSessionTicket?
    requires c'.st == ProcessChangeCipherSpec && c'.wait == ReadCcs && c'.h == Update(c.h, item.m) && c'.neg == c.neg
    requires c'.certRequest == c.certRequest && c'.secret == c.secret && c.neg.ticket && c'.h.buffer == None == c.h.buffer
    requires c'.ticketExpected == !item.m.empty
    requires Agrees(c'.h, said + [item.m]) && c'.h.hash.Some? && Only(hasCert, c, c', {KTicket})
    ensures Fits(cr, hasCert, c, said, c', Entry(false, item))
  {
    hide Agrees, Update, Only;
  }

  lemma ServerFinishedGood(cr: Crypto, hasCert: bool, c: Client, inp: seq<Item>, said: Transcript)
    requires c.wait == Ok && Sound(hasCert, c, said) && c.st == ReadServerFinished
    ensures GoodResult(cr, hasCert, c, inp, said, ServerFinishedStep(cr, c, inp))
  {
    hide GoodResult, Moves, Rank, Agrees, Update, FreeBuffer, Only, Hashed, Stays, Fits;
    var r := ServerFinishedStep(cr, c, inp);
    if Front(inp).Some? {
      UpdateAgrees(c.h, said, inp[0].m);
    }
    FinishedPassed(cr, hasCert, c, inp);
    if r.1 == inp {
      FinishedStays(hasCert, c, said, r.0);
    } else {
      FinishedFits(cr, hasCert, c, said, r.0, inp[0]);
    }
    TakesFront(cr, hasCert, c, inp, said, r);
  }

  lemma FinishedPassed(cr: Crypto, hasCert: bool, c: Client, inp: seq<Item>)
    requires c.wait == Ok && c.st == ReadServerFinished
    ensures var r := ServerFinishedStep(cr, c, inp); Only(hasCert, c, r.0, if r.1 != inp then {KServerFinished} else {})
  {
    hide Moves, Rank, Update, Only, Hashed;
    var r := ServerFinishedStep(cr, c, inp);
    Passes(hasCert, c, r.0, KServerFinished, r.1 != inp);
  }

  lemma FinishedStays(hasCert: bool, c: Client, said: Transcript, c': Client)
    requires Sound(hasCert, c, said) && c.st == ReadServerFinished && c.wait == Ok && Only(hasCert, c, c', {})
    requires c' == c.(wait := c'.wait) && c'.wait in {ReadMessage, Failed}
    ensures Stays(hasCert, c, said, c')
  {
    hide Agrees, Only;
  }

  lemma FinishedFits(cr: Crypto, hasCert: bool, c: Client, said: Transcript, c': Client, item: Item)
    requires Sound(hasCert, c, said) && c.st == ReadServerFinished && c.wait == Ok
    requires item == Item.Handshake(Finished(cr.mac(c.secret, said, true)))
    requires c' == Goto(Hash(c, item.m), if c.neg.resumed then SendClientFinished else FinishClientHandshake, Ok)
    requires Agrees(c'.h, said + [item.m]) && c'.h.hash.Some? && c'.h.buffer.Some? == c.h.buffer.Some?
    requires Only(hasCert, c, c', {KServerFinished})
    ensures Fits(cr, hasCert, c, said, c', Entry(false, item))
  {
    hide Agrees, Update, Only;
  }

  /** The states that neither read nor send. */
  lemma InternalGood(cr: Crypto, hasCert: bool, c: Client, inp: seq<Item>, said: Transcript)
    requires c.wait == Ok && Sound(hasCert, c, said)
    requires c.st in {EnterEarlyData, VerifyServerCertificate, FinishFlight, ProcessChangeCipherSpec, FinishClientHandshake, Done}
    ensures GoodResult(cr, hasCert, c, inp, said, Do(cr, hasCert, c, inp))
  {
    hide GoodResult, Moves, Rank, Agrees, Pos;
    TakesFront(cr, hasCert, c, inp, said, Do(cr, hasCert, c, inp));
  }

  /** The ChangeCipherSpec that is waited for. */
  lemma CcsGood(cr: Crypto, hasCert: bool, c: Client, inp: seq<Item>, said: Transcript)
    requires c.wait == ReadCcs && Sound(hasCert, c, said) && inp != [] && inp[0].ChangeCipherSpec?
    ensures GoodResult(cr, hasCert, c, inp, said, (c.(wait := Ok), inp[1..]))
  {
    hide GoodResult, Agrees, Only;
    Passes(hasCert, c, c.(wait := Ok), KServerCcs, true);
    TakesFront(cr, hasCert, c, inp, said, (c.(wait := Ok), inp[1..]));
  }

  lemma ClientHelloGood(cr: Crypto, hasCert: bool, c: Client, inp: seq<Item>, said: Transcript)
    requires c.wait == Ok && Sound(hasCert, c, said) && c.st == StartConnect
    ensures GoodResult(cr, hasCert, c, inp, said, Do(cr, hasCert, c, inp))
  {
    hide GoodResult, Moves, Rank;
    SaysOne(cr, hasCert, c, inp, said, Do(cr, hasCert, c, inp).0, ClientHello);
  }

  lemma ClientCertificateGood(cr: Crypto, hasCert: bool, c: Client, inp: seq<Item>, said: Transcript)
    requires c.wait == Ok && Sound(hasCert, c, said) && c.st == SendClientCertificate
    ensures GoodResult(cr, hasCert, c, inp, said, (ClientCertificateStep(hasCert, c), inp))
  {
    hide GoodResult, Moves, Rank, Agrees, Update, FreeBuffer, Only;
    UpdateAgrees(c.h, said, Certificate(hasCert));
    UpdateAgrees(FreeBuffer(c.h), said, Certificate(hasCert));
    Passes(hasCert, c, ClientCertificateStep(hasCert, c), KClientCert, c.certRequest);
    if c.certRequest {
      SaysOne(cr, hasCert, c, inp, said, ClientCertificateStep(hasCert, c), Certificate(hasCert));
    } else {
      TakesFront(cr, hasCert, c, inp, said, (ClientCertificateStep(hasCert, c), inp));
    }
  }

  lemma ClientKeyExchangeGood(cr: Crypto, hasCert: bool, c: Client, inp: seq<Item>, said: Transcript)
    requires c.wait == Ok && Sound(hasCert, c, said) && c.st == SendClientKeyExchange
    ensures GoodResult(cr, hasCert, c, inp, said, (ClientKeyExchangeStep(cr, c), inp))
  {
    hide GoodResult, Moves, Rank, Agrees, Update, Only;
    UpdateAgrees(c.h, said, ClientKeyExchange);
    Passes(hasCert, c, ClientKeyExchangeStep(cr, c), KClientKey, true);
    SaysOne(cr, hasCert, c, inp, said, ClientKeyExchangeStep(cr, c), ClientKeyExchange);
  }

  lemma CertificateVerifyGood(cr: Crypto, hasCert: bool, c: Client, inp: seq<Item>, said: Transcript)
    requires c.wait == Ok && Sound(hasCert, c, said) && c.st == SendClientCertificateVerify
    ensures GoodResult(cr, hasCert, c, inp, said, (CertificateVerifyStep(cr, hasCert, c), inp))
  {
    hide GoodResult, Moves, Rank, Agrees, Update, FreeBuffer, Only;
    var signs := c.certRequest && hasCert && c.h.buffer.Some?;
    Passes(hasCert, c, CertificateVerifyStep(cr, hasCert, c), KCertVerify, signs);
    if signs {
      UpdateAgrees(c.h, said, CertificateVerify(cr.sign(c.h.buffer.value)));
      SaysOne(cr, hasCert, c, inp, said, CertificateVerifyStep(cr, hasCert, c), CertificateVerify(cr.sign(c.h.buffer.value)));
    } else {
      TakesFront(cr, hasCert, c, inp, said, (CertificateVerifyStep(cr, hasCert, c), inp));
    }
  }

  // ---------------------------------------------------------------- the last flight

  /** What goes before the Finished: the ChangeCipherSpec and up to two messages. */
  function ProtoItems(c: Client): seq<Item> {
    [ChangeCipherSpec] + Maybe(c.neg.npn, Item.Handshake(NextProto))
  }

  function IdItem(cr: Crypto, c: Client): Item {
    Item.Handshake(ChannelId(cr.signId(Hashed(SayAll(c.h, ProtoItems(c))))))
  }

  function IdItems(cr: Crypto, c: Client): seq<Item> {
    ProtoItems(c) + Maybe(c.neg.channelId, IdItem(cr, c))
  }

  function LastItem(cr: Crypto, c: Client): Item {
    Item.Handshake(Finished(cr.mac(c.secret, Hashed(SayAll(c.h, IdItems(cr, c))), false)))
  }

  function LastFlight(cr: Crypto, c: Client): seq<Item> {
    IdItems(cr, c) + Maybe(true, LastItem(cr, c))
  }

  lemma LastFlightSent(cr: Crypto, c: Client)
    requires c.wait == Ok && c.st == SendClientFinished
    ensures ClientFinishedStep(cr, c) == c.(st := FinishFlight, wait := Flush, out := c.out + LastFlight(cr, c),
                                            h := SayAll(c.h, LastFlight(cr, c)))
  {
    hide Moves, Rank, SayAll, Update, Hashed;
    SayOne(c.h, ChangeCipherSpec);
    SayMaybe(c.h, [ChangeCipherSpec], c.neg.npn, Item.Handshake(NextProto));
    SayMaybe(c.h, ProtoItems(c), c.neg.channelId, IdItem(cr, c));
    SayMaybe(c.h, IdItems(cr, c), true, LastItem(cr, c));
    var c1 := c.(out := c.out + [ChangeCipherSpec]);
    var c2 := if c.neg.npn then Send(c1, NextProto) else c1;
    var c3 := if c.neg.channelId then Send(c2, ChannelId(cr.signId(Hashed(c2.h)))) else c2;
    assert c2 == c.(out := c.out + ProtoItems(c), h := SayAll(c.h, ProtoItems(c)));
    assert c3 == c.(out := c.out + IdItems(cr, c), h := SayAll(c.h, IdItems(cr, c)));
    assert c3.out + [LastItem(cr, c)] == c.out + LastFlight(cr, c);
  }

  lemma LastFlightProper(cr: Crypto, hasCert: bool, c: Client, said: Transcript)
    requires c.st == SendClientFinished && Agrees(c.h, said) && c.h.hash.Some?
    ensures Proper(cr, true, Choices(hasCert, c.neg), c.secret, said, Spoken(LastFlight(cr, c)), Place(c), Place(c) + 4)
  {
    hide Proper, Messages, Agrees, Hashed, SayAll;
    var r, p := Choices(hasCert, c.neg), Place(c);
    assert Spoken([ChangeCipherSpec]) == [Entry(true, ChangeCipherSpec)];
    ProperOne(cr, true, r, c.secret, said, Entry(true, ChangeCipherSpec), p, p + 1);
    ProperSent(cr, true, r, c.secret, said, [ChangeCipherSpec], c.neg.npn, Item.Handshake(NextProto), p, p + 1, p + 2);
    SayAllAgrees(c.h, ProtoItems(c), said);
    ProperSent(cr, true, r, c.secret, said, ProtoItems(c), c.neg.channelId, IdItem(cr, c), p, p + 2, p + 3);
    SayAllAgrees(c.h, IdItems(cr, c), said);
    ProperSent(cr, true, r, c.secret, said, IdItems(cr, c), true, LastItem(cr, c), p, p + 3, p + 4);
  }

  lemma LastFlightHas(cr: Crypto, c: Client, k: Kind)
    ensures Has(true, Spoken(LastFlight(cr, c)), k) <==>
              || k == KClientCcs || (c.neg.npn && k == KNextProto)
              || (c.neg.channelId && k == KChannelId) || k == KClientFinished
  {
    hide Has, Hashed, SayAll;
    assert Spoken([ChangeCipherSpec]) == [Entry(true, ChangeCipherSpec)];
    HasOne(true, Entry(true, ChangeCipherSpec));
    HasSent(true, [ChangeCipherSpec], c.neg.npn, Item.Handshake(NextProto), k);
    HasSent(true, ProtoItems(c), c.neg.channelId, IdItem(cr, c), k);
    HasSent(true, IdItems(cr, c), true, LastItem(cr, c), k);
  }

  lemma LastFlightSkips(hasCert: bool, c: Client, c': Client, es: seq<Entry>)
    requires c.st == SendClientFinished && c'.st == FinishFlight && c.neg == c'.neg && c.certRequest == c'.certRequest
    requires forall k :: Has(true, es, k) <==>
               || k == KClientCcs || (c.neg.npn && k == KNextProto)
               || (c.neg.channelId && k == KChannelId) || k == KClientFinished
    ensures NothingSkipped(hasCert, c, c', es) && NothingExtra(hasCert, c', es) && Place(c') == Place(c) + 4
    ensures !Has(true, es, KCertRequest)
  {
    hide Has, Pos;
    assert Place(c') == Place(c) + 4 && Place(c) == Pos(c.neg.resumed, KClientCcs) by {
      CcsPlace(c);
    }
    forall k | Due(c', hasCert, k) && Pos(c'.neg.resumed, k) < Place(c')
      ensures (Due(c, hasCert, k) && Pos(c'.neg.resumed, k) < Place(c)) || Has(true, es, k)
    {
      LastPlaces(c.neg.resumed, k);
    }
  }

  lemma CcsPlace(c: Client)
    requires c.st == SendClientFinished
    ensures Place(c) == Pos(c.neg.resumed, KClientCcs)
  {
  }

  lemma ClientFinishedGood(cr: Crypto, hasCert: bool, c: Client, inp: seq<Item>, said: Transcript)
    requires c.wait == Ok && Sound(hasCert, c, said) && c.st == SendClientFinished
    ensures GoodResult(cr, hasCert, c, inp, said, (ClientFinishedStep(cr, c), inp))
  {
    hide Has, Messages, Proper, News, NothingSkipped, NothingExtra, Moves, Rank, Agrees, LastFlight, SayAll,
      ClientFinishedStep;
    var c', items := ClientFinishedStep(cr, c), LastFlight(cr, c);
    LastFlightSent(cr, c);
    LastFlightProper(cr, hasCert, c, said);
    forall k {
      LastFlightHas(cr, c, k);
    }
    LastFlightSkips(hasCert, c, c', Spoken(items));
    SayAllAgrees(c.h, items, said);
    NewsSpoken(c.out, inp, items);
  }

  lemma DoGood(cr: Crypto, hasCert: bool, c: Client, inp: seq<Item>, said: Transcript)
    requires c.wait == Ok && Sound(hasCert, c, said)
    ensures GoodResult(cr, hasCert, c, inp, said, Do(cr, hasCert, c, inp))
  {
    hide Sound, GoodResult, ServerHelloStep, ServerCertificateStep, CertificateStatusStep, ServerKeyExchangeStep,
      CertificateRequestStep, ServerHelloDoneStep, ClientCertificateStep, ClientKeyExchangeStep, CertificateVerifyStep,
      ClientFinishedStep, SessionTicketStep, ServerFinishedStep;
    match c.st {
      case StartConnect => ClientHelloGood(cr, hasCert, c, inp, said);
      case ReadServerHello => ServerHelloGood(cr, hasCert, c, inp, said);
      case ReadServerCertificate => ServerCertificateGood(cr, hasCert, c, inp, said);
      case ReadCertificateStatus => CertificateStatusGood(cr, hasCert, c, inp, said);
      case ReadServerKeyExchange => ServerKeyExchangeGood(cr, hasCert, c, inp, said);
      case ReadCertificateRequest => CertificateRequestGood(cr, hasCert, c, inp, said);
      case ReadServerHelloDone => ServerHelloDoneGood(cr, hasCert, c, inp, said);
      case SendClientCertificate => ClientCertificateGood(cr, hasCert, c, inp, said);
      case SendClientKeyExchange => ClientKeyExchangeGood(cr, hasCert, c, inp, said);
      case SendClientCertificateVerify => CertificateVerifyGood(cr, hasCert, c, inp, said);
      case SendClientFinished => ClientFinishedGood(cr, hasCert, c, inp, said);
      case ReadSessionTicket => SessionTicketGood(cr, hasCert, c, inp, said);
      case ReadServerFinished => ServerFinishedGood(cr, hasCert, c, inp, said);
      case _ => InternalGood(cr, hasCert, c, inp, said);
    }
  }

  // ---------------------------------------------------------------- whole runs

  /** Everything that is known of the client and its log, whoever the peer is. */
  predicate Good(cr: Crypto, hasCert: bool, c: Client, log: seq<Entry>) {
    && Sound(hasCert, c, Messages(log))
    && Proper(cr, true, Choices(hasCert, c.neg), c.secret, [], log, 0, Place(c))
    && (forall k :: Due(c, hasCert, k) && Pos(c.neg.resumed, k) < Place(c) ==> Has(true, log, k))
    && NothingExtra(hasCert, c, log)
    && (c.certRequest <==> Has(true, log, KCertRequest))
    && (if PastTicket(c) then c.ticketExpected == (TICKET in log) else TICKET !in log)
  }

  /** The log is as proper under the choices and the secret that the step has settled. */
  lemma ProperSettled(cr: Crypto, hasCert: bool, c: Client, log: seq<Entry>, c': Client)
    requires Proper(cr, true, Choices(hasCert, c.neg), c.secret, [], log, 0, Place(c))
    requires Plain(hasCert, c) && Settled(c, c')
    ensures Proper(cr, true, Choices(hasCert, c'.neg), c'.secret, [], log, 0, Place(c))
    ensures c.neg == c'.neg || forall k :: Has(true, log, k) ==> k == KClientHello
  {
    hide Place, Proper, Has;
    if c.neg == c'.neg && Free(c.neg.resumed, Place(c)) {
      ProperSecret(cr, true, Choices(hasCert, c.neg), c.secret, c'.secret, [], log, 0, Place(c));
    } else if c.neg != c'.neg || c.secret != c'.secret {
      ProperStart(cr, true, Choices(hasCert, c.neg), Choices(hasCert, c'.neg), c.secret, c'.secret, [], log);
    }
  }

  lemma StepSound(cr: Crypto, hasCert: bool, c: Client, log: seq<Entry>, c': Client, es: seq<Entry>)
    requires Good(cr, hasCert, c, log) && GoodStep(cr, hasCert, c, Messages(log), c', es)
    ensures Good(cr, hasCert, c', log + es)
  {
    hide Proper, Has, Messages, Place, Due, May, Agrees, Pos;
    ProperSettled(cr, hasCert, c, log, c');
    MessagesConcat(log, es);
    assert [] + Messages(log) == Messages(log);
    ProperConcat(cr, true, Choices(hasCert, c'.neg), c'.secret, [], log, es, 0, Place(c), Place(c'));
    forall k
      ensures Due(c', hasCert, k) && Pos(c'.neg.resumed, k) < Place(c') ==> Has(true, log + es, k)
      ensures Has(true, log + es, k) ==> May(c', hasCert, k)
    {
      HasConcat(true, log, es, k);
      EarlyPos(k, c.neg.resumed, c'.neg.resumed);
      if Has(true, log, k) {
        StillMay(hasCert, c, c', k);
      }
    }
    HasConcat(true, log, es, KCertRequest);
  }

  lemma StillMay(hasCert: bool, c: Client, c': Client, k: Kind)
    requires May(c, hasCert, k) && (c.certRequest ==> c'.certRequest) && (c.neg == c'.neg || k == KClientHello)
    ensures May(c', hasCert, k)
  {
  }

  lemma EarlyPos(k: Kind, a: bool, b: bool)
    ensures Pos(a, k) < 1 <==> Pos(b, k) < 1
  {
  }

  lemma RunsGood(cr: Crypto, hasCert: bool, c: Client, inp: seq<Item>, log: seq<Entry>)
    requires c.wait == Ok && Good(cr, hasCert, c, log)
    ensures var r := Do(cr, hasCert, c, inp); Good(cr, hasCert, r.0, log + News(c.out, inp, r.0.out, r.1))
  {
    hide Do, News, Plain, Agrees, Proper, GoodStep, Has, Place, Due, Pos, Messages;
    DoGood(cr, hasCert, c, inp, Messages(log));
    var r := Do(cr, hasCert, c, inp);
    StepSound(cr, hasCert, c, log, r.0, News(c.out, inp, r.0.out, r.1));
  }

  /** Writing and failing change neither the log nor what is known; nor does the end of a wait for a message or a write. */
  lemma QuietGood(cr: Crypto, hasCert: bool, c: Client, log: seq<Entry>, c': Client)
    requires Good(cr, hasCert, c, log) && c' == c.(wait := c'.wait, out := c'.out) && c.wait != Ok
    requires c'.wait == c.wait || c'.wait == Failed || (c'.wait == Ok && (c.wait == Flush || c.wait == ReadMessage))
    ensures Good(cr, hasCert, c', log)
  {
    hide Proper, Has, Messages, Agrees, Pos;
    assert Place(c') == Place(c) && forall k :: Due(c, hasCert, k) == Due(c', hasCert, k);
  }

  lemma StepGood(cr: Crypto, cfg: Config, a: Alone, e: Event)
    requires Good(cr, cfg.clientCert, a.c, a.log)
    ensures var b := Step(cr, cfg, a, e); Good(cr, cfg.clientCert, b.c, b.log)
  {
    hide Good, Do, News;
    if e.Move? {
      var p := StepClient(cr, cfg, Pair(a.c, S.Start(), [], a.inbox));
      var woken := a.c.(wait := Ok);
      if a.c.wait == Ok {
        RunsGood(cr, cfg.clientCert, a.c, a.inbox, a.log);
      } else if a.c.wait == ReadMessage && a.inbox != [] && a.inbox[0].Handshake? {
        QuietGood(cr, cfg.clientCert, a.c, a.log, woken);
        RunsGood(cr, cfg.clientCert, woken, a.inbox, a.log);
      } else if a.c.wait == ReadCcs && a.inbox != [] && a.inbox[0].ChangeCipherSpec? {
        WakesGood(cr, cfg.clientCert, a.c, a.inbox, a.log);
      } else {
        QuietGood(cr, cfg.clientCert, a.c, a.log, p.c);
        QuietNews(cr, cfg, a);
        assert a.log + [] == a.log;
      }
    }
  }

  lemma WakesGood(cr: Crypto, hasCert: bool, c: Client, inp: seq<Item>, log: seq<Entry>)
    requires c.wait == ReadCcs && Good(cr, hasCert, c, log) && inp != [] && inp[0].ChangeCipherSpec?
    ensures Good(cr, hasCert, c.(wait := Ok), log + News(c.out, inp, c.out, inp[1..]))
  {
    hide News, Plain, Agrees, Proper, GoodStep, Has, Place, Due, Pos, Messages;
    CcsGood(cr, hasCert, c, inp, Messages(log));
    StepSound(cr, hasCert, c, log, c.(wait := Ok), News(c.out, inp, c.out, inp[1..]));
  }

  lemma QuietNews(cr: Crypto, cfg: Config, a: Alone)
    requires a.c.wait != Ok && !(a.c.wait == ReadMessage && a.inbox != [] && a.inbox[0].Handshake?)
    requires !(a.c.wait == ReadCcs && a.inbox != [] && a.inbox[0].ChangeCipherSpec?)
    ensures var p := StepClient(cr, cfg, Pair(a.c, S.Start(), [], a.inbox)); News(a.c.out, a.inbox, p.c.out, p.toClient) == []
  {
    hide Do;
  }

  lemma {:induction false} ExecGood(cr: Crypto, cfg: Config, events: seq<Event>)
    ensures var a := Exec(cr, cfg, events); Good(cr, cfg.clientCert, a.c, a.log)
    decreases |events|
  {
    if events == [] {
      StartGood(cr, cfg);
    } else {
      hide Good, Step;
      ExecGood(cr, cfg, events[..|events| - 1]);
      StepGood(cr, cfg, Exec(cr, cfg, events[..|events| - 1]), events[|events| - 1]);
    }
  }

  lemma StartGood(cr: Crypto, cfg: Config)
    ensures Good(cr, cfg.clientCert, TlsClient.Start(), [])
  {
  }

  /**
   Whatever arrives from whoever: the transcript is what was said and heard, in order, from the right side and
   nothing twice; every Finished in it is the MAC of all that went before under the client's secret, which is the
   session's or derived from all up to the ClientKeyExchange; nothing was taken in that may not be there, and a
   certificate was only asked for if the log says so. If the client gets to its end, nothing that is due is missing,
   behind the peer's ChangeCipherSpec the peer's Finished has come, a peer that has to has shown a certificate, and the
   client knows whether it got a ticket. The transcript is kept in full exactly while it may have to be signed.
   */
  lemma AgainstAnyPeer(cr: Crypto, cfg: Config, events: seq<Event>)
    ensures var a := Exec(cr, cfg, events);
            && Agrees(a.c.h, Messages(a.log))
            && Proper(cr, true, Choices(cfg.clientCert, a.c.neg), a.c.secret, [], a.log, 0, NOWHERE)
            && (forall k :: Has(true, a.log, k) ==> May(a.c, cfg.clientCert, k))
            && (a.c.certRequest <==> Has(true, a.log, KCertRequest))
            && (a.c.h.buffer.Some? <==> CS.BeforeHello(a.c.st) || MaySign(cfg.clientCert, a.c))
            && (a.c.st == Done ==>
                  && (forall k :: Due(a.c, cfg.clientCert, k) && Pos(a.c.neg.resumed, k) < NOWHERE ==> Has(true, a.log, k))
                  && (a.c.neg.certAuth && !a.c.neg.resumed ==> CERTIFIED in a.log)
                  && (a.c.ticketExpected <==> TICKET in a.log)
                  && Keyed(cr, true, a.c.neg.resumed, a.c.secret, a.log)
                  && exists i, j :: 0 <= i < j < |a.log|
                       && a.log[i] == Entry(false, ChangeCipherSpec)
                       && a.log[j] == Entry(false, Item.Handshake(Finished(cr.mac(a.c.secret, Messages(a.log[..j]), true)))))
  {
    hide Exec, Proper, Has, Messages, Agrees, Due, May, Pos, Place, Keyed, MaySign;
    ExecGood(cr, cfg, events);
    var a := Exec(cr, cfg, events);
    Bounds(cr, cfg.clientCert, a.c, a.log);
    if a.c.st == Done {
      AtTheEnd(a.c, cfg.clientCert);
      BehindCcs(cr, true, Choices(cfg.clientCert, a.c.neg), a.c.secret, a.log, true, Place(a.c));
      CertificateThere(cr, cfg.clientCert, a.c, a.log);
      KeyThere(cr, true, Choices(cfg.clientCert, a.c.neg), a.c.secret, a.log, Place(a.c));
    }
  }

  /** The certificate of the server, taken in. */
  const CERTIFIED := Entry(false, Item.Handshake(Certificate(true)))

  lemma CertificateThere(cr: Crypto, hasCert: bool, c: Client, log: seq<Entry>)
    requires Good(cr, hasCert, c, log) && c.st == Done
    ensures c.neg.certAuth && !c.neg.resumed ==> CERTIFIED in log
  {
    hide Messages, Plain, Agrees;
    if c.neg.certAuth && !c.neg.resumed {
      assert Due(c, hasCert, KServerCert) && Has(true, log, KServerCert);
      var i :| 0 <= i < |log| && KindOf(true, log[i]) == KServerCert;
      assert Proves(cr, true, Choices(hasCert, c.neg), c.secret, [] + Messages(log[..i]), log[i]);
    }
  }

  // ---------------------------------------------------------------- nothing is refused without a cause

  /** The message or ChangeCipherSpec belongs here: it may be there, is right, and nothing that is due comes before it. */
  predicate Acceptable(cr: Crypto, hasCert: bool, c: Client, said: Transcript, e: Entry) {
    var k := KindOf(true, e);
    && !e.sent && !FromClient(k) && Place(c) <= Pos(c.neg.resumed, k) < NOWHERE && May(c, hasCert, k)
    && (k == KServerHello || Proves(cr, true, Choices(hasCert, c.neg), c.secret, said, e))
    && forall k' :: Due(c, hasCert, k') && Place(c) <= Pos(c.neg.resumed, k') ==> Pos(c.neg.resumed, k) <= Pos(c.neg.resumed, k')
  }

  /** What a state that may refuse waits for at the latest. */
  function Awaited(st: State): Kind {
    match st
    case ReadServerHello => KServerHello
    case ReadServerCertificate => KServerCert
    case ReadServerKeyExchange => KServerKey
    case ReadCertificateRequest | ReadServerHelloDone => KHelloDone
    case ReadSessionTicket => KTicket
    case ProcessChangeCipherSpec => KServerCcs
    case _ => KServerFinished
  }

  lemma AwaitedIsDue(cr: Crypto, hasCert: bool, c: Client, inp: seq<Item>, said: Transcript)
    requires c.wait == Ok && Sound(hasCert, c, said) && Do(cr, hasCert, c, inp).0.wait == Failed
    ensures Front(inp).Some? && Reads(c.st)
    ensures Due(c, hasCert, Awaited(c.st)) || c.st == ReadServerKeyExchange
    ensures Place(c) <= Pos(c.neg.resumed, Awaited(c.st)) <= Place(c) + 1
    ensures Place(c) == Pos(c.neg.resumed, if c.st == ReadCertificateRequest then KCertRequest else Awaited(c.st))
  {
    hide Moves, Rank, Update, InitHash, FreeBuffer, Hashed;
  }

  lemma OnlyAwaited(cr: Crypto, hasCert: bool, c: Client, said: Transcript, e: Entry)
    requires Acceptable(cr, hasCert, c, said, e) && Due(c, hasCert, Awaited(c.st))
    requires Place(c) <= Pos(c.neg.resumed, Awaited(c.st)) <= Place(c) + 1
    requires Pos(c.neg.resumed, Awaited(c.st)) == Place(c) || Place(c) == Pos(c.neg.resumed, KCertRequest)
    ensures KindOf(true, e) == Awaited(c.st) || (KindOf(true, e) == KCertRequest && Pos(c.neg.resumed, Awaited(c.st)) != Place(c))
  {
    hide Proves, KindOf, Place, Pos, Due, May, FromClient, Awaited;
    var k := KindOf(true, e);
    if Pos(c.neg.resumed, k) == Place(c) != Pos(c.neg.resumed, Awaited(c.st)) {
      PosInjective(c.neg.resumed, k, KCertRequest);
    } else {
      PosInjective(c.neg.resumed, k, Awaited(c.st));
    }
  }

  /** What is awaited is refused only if it is not right, or may not be there. */
  lemma RefusedFront(cr: Crypto, hasCert: bool, c: Client, inp: seq<Item>, said: Transcript)
    requires c.wait == Ok && Sound(hasCert, c, said) && Reads(c.st) && Do(cr, hasCert, c, inp).0.wait == Failed && Front(inp).Some?
    ensures var e := Entry(false, inp[0]);
            var k := KindOf(true, e);
            && (!Due(c, hasCert, Awaited(c.st)) ==> c.st == ReadServerKeyExchange && k == KServerKey)
            && (k == Awaited(c.st) || (k == KCertRequest && c.st == ReadCertificateRequest) ==>
                  !May(c, hasCert, k) || (k != KServerHello && !Proves(cr, true, Choices(hasCert, c.neg), c.secret, said, e)))
  {
    hide Moves, Rank, Update, InitHash, FreeBuffer, Only, Place, Pos;
  }

  lemma DoForCause(cr: Crypto, hasCert: bool, c: Client, inp: seq<Item>, said: Transcript)
    requires c.wait == Ok && Sound(hasCert, c, said) && Do(cr, hasCert, c, inp).0.wait == Failed
    ensures inp != [] && !Acceptable(cr, hasCert, c, said, Entry(false, inp[0]))
  {
    hide Do, KindOf, Proves, Sound, Due, May, Place, Pos, FromClient;
    AwaitedIsDue(cr, hasCert, c, inp, said);
    RefusedFront(cr, hasCert, c, inp, said);
    if Acceptable(cr, hasCert, c, said, Entry(false, inp[0])) && Due(c, hasCert, Awaited(c.st)) {
      OnlyAwaited(cr, hasCert, c, said, Entry(false, inp[0]));
    }
  }

  lemma WaitForCause(cr: Crypto, hasCert: bool, c: Client, said: Transcript, item: Item)
    requires Sound(hasCert, c, said)
    requires (c.wait == ReadMessage && item.ChangeCipherSpec?) || (c.wait == ReadCcs && item.Handshake?)
    ensures !Acceptable(cr, hasCert, c, said, Entry(false, item))
  {
    hide Agrees, Proves;
    assert item.ChangeCipherSpec? ==> KindOf(true, Entry(false, item)) == KServerCcs;
    if c.wait == ReadCcs {
      assert Due(c, hasCert, KServerCcs) && Place(c) == Pos(c.neg.resumed, KServerCcs);
    } else {
      assert Due(c, hasCert, Awaited(c.st)) || Due(c, hasCert, KHelloDone);
      assert c.st.ReadServerFinished? ==> Pos(c.neg.resumed, KServerCcs) < Place(c);
    }
  }

  lemma WokenSame(cr: Crypto, hasCert: bool, c: Client, said: Transcript, e: Entry)
    requires c.wait == ReadMessage && Sound(hasCert, c, said)
    ensures Sound(hasCert, c.(wait := Ok), said)
    ensures Acceptable(cr, hasCert, c, said, e) == Acceptable(cr, hasCert, c.(wait := Ok), said, e)
  {
    hide Agrees, Proves, Pos;
    var woken := c.(wait := Ok);
    assert Place(woken) == Place(c) && woken.neg == c.neg && forall k :: Due(woken, hasCert, k) == Due(c, hasCert, k);
  }

  /**
   However a run has gone: the client fails only over a message or a ChangeCipherSpec that does not belong there, is
   not right, or comes while something is still due. What is optional may be missing.
   */
  lemma RefusedForCause(cr: Crypto, cfg: Config, events: seq<Event>)
    ensures var a := Exec(cr, cfg, events);
            a.c.wait != Failed && Step(cr, cfg, a, Move).c.wait == Failed ==>
              a.inbox != [] && !Acceptable(cr, cfg.clientCert, a.c, Messages(a.log), Entry(false, a.inbox[0]))
  {
    hide Exec, Acceptable, Messages, Do, Sound, Proper;
    var a, hasCert := Exec(cr, cfg, events), cfg.clientCert;
    ExecGood(cr, cfg, events);
    if a.c.wait != Failed && Step(cr, cfg, a, Move).c.wait == Failed {
      if a.c.wait == Ok {
        DoForCause(cr, hasCert, a.c, a.inbox, Messages(a.log));
      } else if a.c.wait == ReadMessage && a.inbox[0].Handshake? {
        WokenSame(cr, hasCert, a.c, Messages(a.log), Entry(false, a.inbox[0]));
        DoForCause(cr, hasCert, a.c.(wait := Ok), a.inbox, Messages(a.log));
      } else {
        WaitForCause(cr, hasCert, a.c, Messages(a.log), a.inbox[0]);
      }
    }
  }

  lemma Bounds(cr: Crypto, hasCert: bool, c: Client, log: seq<Entry>)
    requires Proper(cr, true, Choices(hasCert, c.neg), c.secret, [], log, 0, Place(c))
    ensures Proper(cr, true, Choices(hasCert, c.neg), c.secret, [], log, 0, NOWHERE)
  {
    hide Proves, KindOf, FromClient, Pos, Messages;
    assert Place(c) <= NOWHERE;
  }

  /** At the end every message that has a place lies behind the client. */
  lemma AtTheEnd(c: Client, hasCert: bool)
    requires c.st == Done
    ensures forall k :: Pos(c.neg.resumed, k) < NOWHERE ==> Pos(c.neg.resumed, k) < Place(c)
    ensures Due(c, hasCert, KServerCcs) && Due(c, hasCert, KServerFinished)
    ensures Due(c, hasCert, KServerHello) && Due(c, hasCert, KClientKey)
    ensures Pos(c.neg.resumed, if c.neg.resumed then KServerHello else KClientKey) < NOWHERE
    ensures Pos(c.neg.resumed, KServerCcs) < NOWHERE && Pos(c.neg.resumed, KServerFinished) < NOWHERE
  {
  }
}
