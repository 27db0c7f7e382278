/** The client's state machine of the TLS 1.2 handshake. */
module TlsClient {
  import opened Prelude
  import opened TlsScript
  import opened TlsEndpoint

  datatype State =
    | StartConnect | EnterEarlyData | ReadServerHello | ReadServerCertificate | ReadCertificateStatus
    | VerifyServerCertificate | ReadServerKeyExchange | ReadCertificateRequest | ReadServerHelloDone
    | SendClientCertificate | SendClientKeyExchange | SendClientCertificateVerify | SendClientFinished
    | FinishFlight | ReadSessionTicket | ProcessChangeCipherSpec | ReadServerFinished | FinishClientHandshake | Done

  datatype Client = Client(
    st: State, wait: Wait, h: Hashes, out: seq<Item>, neg: Negotiated, certRequest: bool, ticketExpected: bool, secret: nat)

  function NothingYet(): Negotiated {
    Negotiated(false, false, false, false, false, false, false)
  }

  function Start(): Client {
    Client(StartConnect, Ok, Hashes(Some([]), None), [], NothingYet(), false, false, 0)
  }

  function Goto(c: Client, st: State, wait: Wait): Client {
    c.(st := st, wait := wait)
  }

  function Send(c: Client, m: Message): Client {
    c.(h := Update(c.h, m), out := c.out + [Handshake(m)])
  }

  function Hash(c: Client, m: Message): Client {
    c.(h := Update(c.h, m))
  }

  /** The states in the order of a run: resumption goes from the ServerHello straight to the ticket. */
  function Rank(c: Client): nat {
    match c.st
    case StartConnect => 20
    case EnterEarlyData => 19
    case ReadServerHello => 18
    case ReadServerCertificate => 17
    case ReadCertificateStatus => 16
    case VerifyServerCertificate => 15
    case ReadServerKeyExchange => 14
    case ReadCertificateRequest => 13
    case ReadServerHelloDone => 12
    case SendClientCertificate => 11
    case SendClientKeyExchange => 10
    case SendClientCertificateVerify => 9
    case SendClientFinished => if c.neg.resumed then 3 else 8
    case FinishFlight => if c.neg.resumed then 2 else 7
    case ReadSessionTicket => 6
    case ProcessChangeCipherSpec => 5
    case ReadServerFinished => 4
    case FinishClientHandshake => 1
    case Done => 0
  }

  /** Waiting for input and failing change nothing else; any other step moves to a later state. */
  predicate Moves(c: Client, c': Client) {
    if c'.wait == ReadMessage || c'.wait == Failed then c' == c.(wait := c'.wait) else Rank(c') < Rank(c)
  }

  // ---------------------------------------------------------------- one state after the other

  function ServerHelloStep(cr: Crypto, c: Client, inp: seq<Item>): (r: (Client, seq<Item>))
    requires c.st == ReadServerHello && c.wait == Ok
    ensures Moves(c, r.0)
  {
    if Front(inp).None? then (c.(wait := ReadMessage), inp)
    else if !Front(inp).value.ServerHello? then (c.(wait := Failed), inp)
    else
      var neg := Front(inp).value.neg;
      var h := Update(InitHash(c.h), Front(inp).value);
      var c' := c.(neg := neg, ticketExpected := neg.ticket, secret := if neg.resumed then cr.sessionSecret else c.secret,
                   h := if neg.resumed || !neg.certAuth then FreeBuffer(h) else h);
      (Goto(c', if neg.resumed then ReadSessionTicket else ReadServerCertificate, Ok), inp[1..])
  }

  function ServerCertificateStep(c: Client, inp: seq<Item>): (r: (Client, seq<Item>))
    requires c.st == ReadServerCertificate && c.wait == Ok
    ensures Moves(c, r.0)
  {
    if !c.neg.certAuth then (Goto(c, ReadCertificateStatus, Ok), inp)
    else if Front(inp).None? then (c.(wait := ReadMessage), inp)
    else if !Front(inp).value.Certificate? || !Front(inp).value.present then (c.(wait := Failed), inp)
    else (Goto(Hash(c, Front(inp).value), ReadCertificateStatus, Ok), inp[1..])
  }

  function CertificateStatusStep(c: Client, inp: seq<Item>): (r: (Client, seq<Item>))
    requires c.st == ReadCertificateStatus && c.wait == Ok
    ensures Moves(c, r.0)
  {
    if !c.neg.status then (Goto(c, VerifyServerCertificate, Ok), inp)
    else if Front(inp).None? then (c.(wait := ReadMessage), inp)
    else if !Front(inp).value.CertificateStatus? then (Goto(c, VerifyServerCertificate, Ok), inp)
    else (Goto(Hash(c, Front(inp).value), VerifyServerCertificate, Ok), inp[1..])
  }

  function ServerKeyExchangeStep(c: Client, inp: seq<Item>): (r: (Client, seq<Item>))
    requires c.st == ReadServerKeyExchange && c.wait == Ok
    ensures Moves(c, r.0)
  {
    if Front(inp).None? then (c.(wait := ReadMessage), inp)
    else if !Front(inp).value.ServerKeyExchange? then
      if c.neg.requiresSke then (c.(wait := Failed), inp) else (Goto(c, ReadCertificateRequest, Ok), inp)
    else if c.neg.certAuth && !c.neg.requiresSke then (c.(wait := Failed), inp)
    else (Goto(Hash(c, Front(inp).value), ReadCertificateRequest, Ok), inp[1..])
  }

  function CertificateRequestStep(c: Client, inp: seq<Item>): (r: (Client, seq<Item>))
    requires c.st == ReadCertificateRequest && c.wait == Ok
    ensures Moves(c, r.0)
  {
    if !c.neg.certAuth then (Goto(c, ReadServerHelloDone, Ok), inp)
    else if Front(inp).None? then (c.(wait := ReadMessage), inp)
    else if Front(inp).value.ServerHelloDone? then (Goto(c.(h := FreeBuffer(c.h)), ReadServerHelloDone, Ok), inp)
    else if !Front(inp).value.CertificateRequest? then (c.(wait := Failed), inp)
    else (Goto(Hash(c, Front(inp).value).(certRequest := true), ReadServerHelloDone, Ok), inp[1..])
  }

  function ServerHelloDoneStep(c: Client, inp: seq<Item>): (r: (Client, seq<Item>))
    requires c.st == ReadServerHelloDone && c.wait == Ok
    ensures Moves(c, r.0)
  {
    if Front(inp).None? then (c.(wait := ReadMessage), inp)
    else if !Front(inp).value.ServerHelloDone? then (c.(wait := Failed), inp)
    else (Goto(Hash(c, Front(inp).value), SendClientCertificate, Ok), inp[1..])
  }

  function ClientCertificateStep(hasCert: bool, c: Client): (c': Client)
    requires c.st == SendClientCertificate && c.wait == Ok
    ensures Moves(c, c')
  {
    if !c.certRequest then Goto(c, SendClientKeyExchange, Ok)
    else
      var kept := if hasCert then c else c.(h := FreeBuffer(c.h));
      Goto(Send(kept, Certificate(hasCert)), SendClientKeyExchange, Ok)
  }

  function ClientKeyExchangeStep(cr: Crypto, c: Client): (c': Client)
    requires c.st == SendClientKeyExchange && c.wait == Ok
    ensures Moves(c, c')
  {
    var sent := Send(c, ClientKeyExchange);
    Goto(sent.(secret := cr.derive(Hashed(sent.h))), SendClientCertificateVerify, Ok)
  }

  function CertificateVerifyStep(cr: Crypto, hasCert: bool, c: Client): (c': Client)
    requires c.st == SendClientCertificateVerify && c.wait == Ok
    ensures Moves(c, c')
  {
    if !c.certRequest || !hasCert then Goto(c, SendClientFinished, Ok)
    else if c.h.buffer.None? then c.(wait := Failed)
    else
      var sent := Send(c, CertificateVerify(cr.sign(c.h.buffer.value)));
      Goto(sent.(h := FreeBuffer(sent.h)), SendClientFinished, Ok)
  }

  function ClientFinishedStep(cr: Crypto, c: Client): (c': Client)
    requires c.st == SendClientFinished && c.wait == Ok
    ensures Moves(c, c')
  {
    var c1 := c.(out := c.out + [ChangeCipherSpec]);
    var c2 := if c.neg.npn then Send(c1, NextProto) else c1;
    var c3 := if c.neg.channelId then Send(c2, ChannelId(cr.signId(Hashed(c2.h)))) else c2;
    Goto(Send(c3, Finished(cr.mac(c3.secret, Hashed(c3.h), false))), FinishFlight, Flush)
  }

  function SessionTicketStep(c: Client, inp: seq<Item>): (r: (Client, seq<Item>))
    requires c.st == ReadSessionTicket && c.wait == Ok
    ensures Moves(c, r.0)
  {
    if !c.ticketExpected then (Goto(c, ProcessChangeCipherSpec, ReadCcs), inp)
    else if Front(inp).None? then (c.(wait := ReadMessage), inp)
    else if !Front(inp).value.NewSessionTicket? then (c.(wait := Failed), inp)
    else
      var c' := if Front(inp).value.empty then c.(ticketExpected := false) else c;
      (Goto(Hash(c', Front(inp).value), ProcessChangeCipherSpec, ReadCcs), inp[1..])
  }

  function ServerFinishedStep(cr: Crypto, c: Client, inp: seq<Item>): (r: (Client, seq<Item>))
    requires c.st == ReadServerFinished && c.wait == Ok
    ensures Moves(c, r.0)
  {
    if Front(inp).None? then (c.(wait := ReadMessage), inp)
    else if Front(inp).value != Finished(cr.mac(c.secret, Hashed(c.h), true)) then (c.(wait := Failed), inp)
    else (Goto(Hash(c, Front(inp).value), if c.neg.resumed then SendClientFinished else FinishClientHandshake, Ok), inp[1..])
  }

  /** What the state machine does in its present state. */
  function Do(cr: Crypto, hasCert: bool, c: Client, inp: seq<Item>): (r: (Client, seq<Item>))
    requires c.wait == Ok
    ensures c.st != Done ==> Moves(c, r.0)
  {
    match c.st
    case StartConnect => (Goto(Send(c, ClientHello), EnterEarlyData, Flush), inp)
    case EnterEarlyData => (Goto(c, ReadServerHello, Ok), inp)
    case ReadServerHello => ServerHelloStep(cr, c, inp)
    case ReadServerCertificate => ServerCertificateStep(c, inp)
    case ReadCertificateStatus => CertificateStatusStep(c, inp)
    case VerifyServerCertificate => (Goto(c, ReadServerKeyExchange, Ok), inp)
    case ReadServerKeyExchange => ServerKeyExchangeStep(c, inp)
    case ReadCertificateRequest => CertificateRequestStep(c, inp)
    case ReadServerHelloDone => ServerHelloDoneStep(c, inp)
    case SendClientCertificate => (ClientCertificateStep(hasCert, c), inp)
    case SendClientKeyExchange => (ClientKeyExchangeStep(cr, c), inp)
    case SendClientCertificateVerify => (CertificateVerifyStep(cr, hasCert, c), inp)
    case SendClientFinished => (ClientFinishedStep(cr, c), inp)
    case FinishFlight => (Goto(c, if c.neg.resumed then FinishClientHandshake else ReadSessionTicket, Ok), inp)
    case ReadSessionTicket => SessionTicketStep(c, inp)
    case ProcessChangeCipherSpec => (Goto(c, ReadServerFinished, Ok), inp)
    case ReadServerFinished => ServerFinishedStep(cr, c, inp)
    case FinishClientHandshake => (Goto(c, Done, Ok), inp)
    case Done => (c, inp)
  }

  predicate Reads(st: State) {
    || st.ReadServerHello? || st.ReadServerCertificate? || st.ReadCertificateStatus? || st.ReadServerKeyExchange?
    || st.ReadCertificateRequest? || st.ReadServerHelloDone? || st.ReadSessionTicket? || st.ReadServerFinished?
  }

  /** There is a transcript: in the buffer until the ServerHello is in, and from then on as a hash. */
  predicate Begun(c: Client) {
    if c.st.ReadServerHello? then c.h.hash.None? && c.h.buffer.Some? else c.h.hash.Some?
  }

  /** Waiting and failing change nothing, and the message at the front is taken whole or not at all. */
  predicate Outcome(c: Client, inp: seq<Item>, c': Client, inp': seq<Item>) {
    && c'.out == c.out
    && (c'.wait == ReadMessage ==> c' == c.(wait := ReadMessage) && inp' == inp && Front(inp).None?)
    && (c'.wait == Failed ==> c' == c.(wait := Failed) && inp' == inp && Front(inp).Some?)
    && (inp' == inp || (Front(inp).Some? && inp' == inp[1..]))
  }

  lemma Outcomes(cr: Crypto, hasCert: bool, c: Client, inp: seq<Item>)
    requires c.wait == Ok && Reads(c.st)
    ensures var (c', inp') := Do(cr, hasCert, c, inp); Outcome(c, inp, c', inp')
  {
    hide Moves, Rank, Hashed, Update, InitHash, FreeBuffer;
  }

  lemma Transcribed(cr: Crypto, hasCert: bool, c: Client, inp: seq<Item>)
    requires c.wait == Ok && Reads(c.st) && Begun(c)
    ensures var (c', inp') := Do(cr, hasCert, c, inp);
            Said(c'.h) == if |inp'| == |inp| then Said(c.h) else Said(c.h) + [inp[0].m]
  {
    hide Moves, Rank, Hashed, Update, InitHash, FreeBuffer, Said;
    if Front(inp).Some? {
      SaidUpdated(c.h, inp[0].m);
    } else {
      SaidUpdated(c.h, ClientHello);
    }
  }

  /**
   A state that reads waits only while there is no message, and fails only over a message that is there; either
   leaves everything as it was. Otherwise it takes the message whole, into the transcript, or not at all.
   */
  lemma OneMessage(cr: Crypto, hasCert: bool, c: Client, inp: seq<Item>)
    requires c.wait == Ok && Reads(c.st)
    ensures var (c', inp') := Do(cr, hasCert, c, inp);
            && Outcome(c, inp, c', inp')
            && (Begun(c) ==> Said(c'.h) == if inp' == inp then Said(c.h) else Said(c.h) + [inp[0].m])
  {
    hide Do, Said, Begun;
    Outcomes(cr, hasCert, c, inp);
    if Begun(c) {
      Transcribed(cr, hasCert, c, inp);
    }
  }

  /** The machine runs until it has to wait, has failed or is done. */
  function Run(cr: Crypto, hasCert: bool, c: Client, inp: seq<Item>): (Client, seq<Item>)
    requires c.wait == Ok
    decreases Rank(c)
  {
    if c.st == Done then (c, inp)
    else
      var (c', inp') := Do(cr, hasCert, c, inp);
      if c'.wait == Ok then Run(cr, hasCert, c', inp') else (c', inp')
  }

  // ---------------------------------------------------------------- over mutable state

  class ClientHandshake {
    const cr: Crypto
    const hasCert: bool
    var st: State
    var h: Hashes
    var out: seq<Item>
    var neg: Negotiated
    var certRequest: bool
    var ticketExpected: bool
    var secret: nat

    ghost function View(wait: Wait): Client
      reads this
    {
      Client(st, wait, h, out, neg, certRequest, ticketExpected, secret)
    }

    constructor (cr: Crypto, hasCert: bool)
      ensures View(Ok) == Start() && this.cr == cr && this.hasCert == hasCert
    {
      this.cr, this.hasCert := cr, hasCert;
      st, h, out, neg := StartConnect, Hashes(Some([]), None), [], NothingYet();
      certRequest, ticketExpected, secret := false, false, 0;
    }

    method AddMessage(m: Message)
      modifies this`h, this`out
      ensures h == Update(old(h), m) && out == old(out) + [Item.Handshake(m)]
    {
      h := Update(h, m);
      out := out + [Item.Handshake(m)];
    }

    method DoReadServerHello(inp: Channel) returns (ret: Wait)
      requires st == ReadServerHello
      modifies this, inp
      ensures (View(ret), inp.items) == ServerHelloStep(cr, old(View(Ok)), old(inp.items))
    {
      var msg := inp.GetMessage();
      if msg.None? {
        return ReadMessage;
      }
      if !msg.value.ServerHello? {
        return Failed;
      }
      neg := msg.value.neg;
      if neg.resumed {
        secret := cr.sessionSecret;
      }
      h := Update(InitHash(h), msg.value);
      if neg.resumed || !neg.certAuth {
        h := FreeBuffer(h);
      }
      ticketExpected := neg.ticket;
      inp.NextMessage();
      if neg.resumed {
        st := ReadSessionTicket;
        return Ok;
      }
      st := ReadServerCertificate;
      return Ok;
    }

    method DoReadServerCertificate(inp: Channel) returns (ret: Wait)
      requires st == ReadServerCertificate
      modifies this, inp
      ensures (View(ret), inp.items) == ServerCertificateStep(old(View(Ok)), old(inp.items))
    {
      if !neg.certAuth {
        st := ReadCertificateStatus;
        return Ok;
      }
      var msg := inp.GetMessage();
      if msg.None? {
        return ReadMessage;
      }
      if !msg.value.Certificate? || !msg.value.present {
        return Failed;
      }
      h := Update(h, msg.value);
      inp.NextMessage();
      st := ReadCertificateStatus;
      return Ok;
    }

    method DoReadCertificateStatus(inp: Channel) returns (ret: Wait)
      requires st == ReadCertificateStatus
      modifies this, inp
      ensures (View(ret), inp.items) == CertificateStatusStep(old(View(Ok)), old(inp.items))
    {
      if !neg.status {
        st := VerifyServerCertificate;
        return Ok;
      }
      var msg := inp.GetMessage();
      if msg.None? {
        return ReadMessage;
      }
      if !msg.value.CertificateStatus? {
        st := VerifyServerCertificate;
        return Ok;
      }
      h := Update(h, msg.value);
      inp.NextMessage();
      st := VerifyServerCertificate;
      return Ok;
    }

    method DoReadServerKeyExchange(inp: Channel) returns (ret: Wait)
      requires st == ReadServerKeyExchange
      modifies this, inp
      ensures (View(ret), inp.items) == ServerKeyExchangeStep(old(View(Ok)), old(inp.items))
    {
      var msg := inp.GetMessage();
      if msg.None? {
        return ReadMessage;
      }
      if !msg.value.ServerKeyExchange? {
        if neg.requiresSke {
          return Failed;
        }
        st := ReadCertificateRequest;
        return Ok;
      }
      if neg.certAuth && !neg.requiresSke {
        return Failed;
      }
      h := Update(h, msg.value);
      inp.NextMessage();
      st := ReadCertificateRequest;
      return Ok;
    }

    method DoReadCertificateRequest(inp: Channel) returns (ret: Wait)
      requires st == ReadCertificateRequest
      modifies this, inp
      ensures (View(ret), inp.items) == CertificateRequestStep(old(View(Ok)), old(inp.items))
    {
      if !neg.certAuth {
        st := ReadServerHelloDone;
        return Ok;
      }
      var msg := inp.GetMessage();
      if msg.None? {
        return ReadMessage;
      }
      if msg.value.ServerHelloDone? {
        h := FreeBuffer(h);
        st := ReadServerHelloDone;
        return Ok;
      }
      if !msg.value.CertificateRequest? {
        return Failed;
      }
      h := Update(h, msg.value);
      certRequest := true;
      inp.NextMessage();
      st := ReadServerHelloDone;
      return Ok;
    }

    method DoReadServerHelloDone(inp: Channel) returns (ret: Wait)
      requires st == ReadServerHelloDone
      modifies this, inp
      ensures (View(ret), inp.items) == ServerHelloDoneStep(old(View(Ok)), old(inp.items))
    {
      var msg := inp.GetMessage();
      if msg.None? {
        return ReadMessage;
      }
      if !msg.value.ServerHelloDone? {
        return Failed;
      }
      h := Update(h, msg.value);
      inp.NextMessage();
      st := SendClientCertificate;
      return Ok;
    }

    method DoSendClientCertificate() returns (ret: Wait)
      requires st == SendClientCertificate
      modifies this
      ensures View(ret) == ClientCertificateStep(hasCert, old(View(Ok)))
    {
      if !certRequest {
        st := SendClientKeyExchange;
        return Ok;
      }
      if !hasCert {
        h := FreeBuffer(h);
      }
      AddMessage(Certificate(hasCert));
      st := SendClientKeyExchange;
      return Ok;
    }

    method DoSendClientKeyExchange() returns (ret: Wait)
      requires st == SendClientKeyExchange
      modifies this
      ensures View(ret) == ClientKeyExchangeStep(cr, old(View(Ok)))
    {
      AddMessage(ClientKeyExchange);
      secret := cr.derive(Hashed(h));
      st := SendClientCertificateVerify;
      return Ok;
    }

    method DoSendClientCertificateVerify() returns (ret: Wait)
      requires st == SendClientCertificateVerify
      modifies this
      ensures View(ret) == CertificateVerifyStep(cr, hasCert, old(View(Ok)))
    {
      if !certRequest || !hasCert {
        st := SendClientFinished;
        return Ok;
      }
      if h.buffer.None? {
        return Failed;
      }
      AddMessage(CertificateVerify(cr.sign(h.buffer.value)));
      h := FreeBuffer(h);
      st := SendClientFinished;
      return Ok;
    }

    method DoSendClientFinished() returns (ret: Wait)
      requires st == SendClientFinished
      modifies this
      ensures View(ret) == ClientFinishedStep(cr, old(View(Ok)))
    {
      out := out + [ChangeCipherSpec];
      if neg.npn {
        AddMessage(NextProto);
      }
      if neg.channelId {
        AddMessage(ChannelId(cr.signId(Hashed(h))));
      }
      AddMessage(Finished(cr.mac(secret, Hashed(h), false)));
      st := FinishFlight;
      return Flush;
    }

    method DoReadSessionTicket(inp: Channel) returns (ret: Wait)
      requires st == ReadSessionTicket
      modifies this, inp
      ensures (View(ret), inp.items) == SessionTicketStep(old(View(Ok)), old(inp.items))
    {
      if !ticketExpected {
        st := ProcessChangeCipherSpec;
        return ReadCcs;
      }
      var msg := inp.GetMessage();
      if msg.None? {
        return ReadMessage;
      }
      if !msg.value.NewSessionTicket? {
        return Failed;
      }
      h := Update(h, msg.value);
      if msg.value.empty {
        ticketExpected := false;
        inp.NextMessage();
        st := ProcessChangeCipherSpec;
        return ReadCcs;
      }
      inp.NextMessage();
      st := ProcessChangeCipherSpec;
      return ReadCcs;
    }

    method DoReadServerFinished(inp: Channel) returns (ret: Wait)
      requires st == ReadServerFinished
      modifies this, inp
      ensures (View(ret), inp.items) == ServerFinishedStep(cr, old(View(Ok)), old(inp.items))
    {
      var msg := inp.GetMessage();
      if msg.None? {
        return ReadMessage;
      }
      if !msg.value.Finished? {
        return Failed;
      }
      // The MAC is over the transcript before this message.
      var finished := cr.mac(secret, Hashed(h), true);
      if msg.value.mac != finished {
        return Failed;
      }
      h := Update(h, msg.value);
      inp.NextMessage();
      if neg.resumed {
        st := SendClientFinished;
        return Ok;
      }
      st := FinishClientHandshake;
      return Ok;
    }

    /** Runs the states one after the other until something has to be waited for. */
    method Handshake(inp: Channel) returns (ret: Wait)
      modifies this, inp
      ensures (View(ret), inp.items) == Run(cr, hasCert, old(View(Ok)), old(inp.items))
    {
      hide ServerHelloStep, ServerCertificateStep, CertificateStatusStep, ServerKeyExchangeStep, CertificateRequestStep,
        ServerHelloDoneStep, ClientCertificateStep, ClientKeyExchangeStep, CertificateVerifyStep, ClientFinishedStep,
        SessionTicketStep, ServerFinishedStep, Update;
      ret := Ok;
      while st != Done
        invariant Run(cr, hasCert, old(View(Ok)), old(inp.items)) == Run(cr, hasCert, View(Ok), inp.items)
        decreases Rank(View(Ok))
      {
        ghost var c, items := View(Ok), inp.items;
        match st {
          case StartConnect =>
            AddMessage(ClientHello);
            st := EnterEarlyData;
            ret := Flush;
          case EnterEarlyData => st, ret := ReadServerHello, Ok;
          case ReadServerHello => ret := DoReadServerHello(inp);
          case ReadServerCertificate => ret := DoReadServerCertificate(inp);
          case ReadCertificateStatus => ret := DoReadCertificateStatus(inp);
          case VerifyServerCertificate => st, ret := ReadServerKeyExchange, Ok;
          case ReadServerKeyExchange => ret := DoReadServerKeyExchange(inp);
          case ReadCertificateRequest => ret := DoReadCertificateRequest(inp);
          case ReadServerHelloDone => ret := DoReadServerHelloDone(inp);
          case SendClientCertificate => ret := DoSendClientCertificate();
          case SendClientKeyExchange => ret := DoSendClientKeyExchange();
          case SendClientCertificateVerify => ret := DoSendClientCertificateVerify();
          case SendClientFinished => ret := DoSendClientFinished();
          case FinishFlight => st, ret := if neg.resumed then FinishClientHandshake else ReadSessionTicket, Ok;
          case ReadSessionTicket => ret := DoReadSessionTicket(inp);
          case ProcessChangeCipherSpec => st, ret := ReadServerFinished, Ok;
          case ReadServerFinished => ret := DoReadServerFinished(inp);
          case FinishClientHandshake => st, ret := Done, Ok;
        }
        assert (View(ret), inp.items) == Do(cr, hasCert, c, items);
        if ret != Ok {
          return;
        }
      }
      ret := Ok;
    }
  }
}
