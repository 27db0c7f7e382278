/** The server's state machine of the TLS 1.2 handshake. */
module TlsServer {
  import opened Prelude
  import opened TlsScript
  import opened TlsEndpoint

  datatype State =
    | StartAccept | ReadClientHello | SelectCertificate | SelectParameters | SendServerHello | SendServerCertificate
    | SendServerKeyExchange | SendServerHelloDone | ReadClientCertificate | VerifyClientCertificate | ReadClientKeyExchange
    | ReadClientCertificateVerify | ReadChangeCipherSpec | ProcessChangeCipherSpec | ReadNextProto | ReadChannelId
    | ReadClientFinished | SendServerFinished | FinishServerHandshake | Done

  datatype Server = Server(
    st: State, wait: Wait, h: Hashes, out: seq<Item>, certRequest: bool, keyParams: bool, peerKey: bool, secret: nat)

  function Start(): Server {
    Server(StartAccept, Ok, Hashes(Some([]), None), [], false, false, false, 0)
  }

  function Goto(s: Server, st: State, wait: Wait): Server {
    s.(st := st, wait := wait)
  }

  function Send(s: Server, m: Message): Server {
    s.(h := Update(s.h, m), out := s.out + [Handshake(m)])
  }

  function Hash(s: Server, m: Message): Server {
    s.(h := Update(s.h, m))
  }

  /** The states in the order of a run: on resumption the server's Finished comes first. */
  function Rank(cfg: Config, st: State): nat {
    match st
    case StartAccept => 22
    case ReadClientHello => 21
    case SelectCertificate => 20
    case SelectParameters => 19
    case SendServerHello => 18
    case SendServerCertificate => 17
    case SendServerKeyExchange => 16
    case SendServerHelloDone => 15
    case ReadClientCertificate => 14
    case VerifyClientCertificate => 13
    case ReadClientKeyExchange => 12
    case ReadClientCertificateVerify => 11
    case ReadChangeCipherSpec => 8
    case ProcessChangeCipherSpec => 7
    case ReadNextProto => 6
    case ReadChannelId => 5
    case ReadClientFinished => 4
    case SendServerFinished => if cfg.neg.resumed then 10 else 3
    case FinishServerHandshake => 1
    case Done => 0
  }

  /** Waiting for input and failing change nothing else; any other step moves to a later state. */
  predicate Moves(cfg: Config, s: Server, s': Server) {
    if s'.wait == ReadMessage || s'.wait == Failed then s' == s.(wait := s'.wait) else Rank(cfg, s'.st) < Rank(cfg, s.st)
  }

  // ---------------------------------------------------------------- one state after the other

  function ClientHelloStep(cfg: Config, s: Server, inp: seq<Item>): (r: (Server, seq<Item>))
    requires s.st == ReadClientHello && s.wait == Ok
    ensures Moves(cfg, s, r.0)
  {
    if Front(inp).None? then (s.(wait := ReadMessage), inp)
    else if !Front(inp).value.ClientHello? then (s.(wait := Failed), inp)
    else (Goto(s, SelectCertificate, Ok), inp)
  }

  function SelectCertificateStep(cfg: Config, s: Server, inp: seq<Item>): (r: (Server, seq<Item>))
    requires s.st == SelectCertificate && s.wait == Ok
    ensures Moves(cfg, s, r.0)
  {
    if Front(inp).None? then (s.(wait := ReadMessage), inp)
    else (Goto(s, SelectParameters, Ok), inp)
  }

  function SelectParametersStep(cr: Crypto, cfg: Config, s: Server, inp: seq<Item>): (r: (Server, seq<Item>))
    requires s.st == SelectParameters && s.wait == Ok
    ensures Moves(cfg, s, r.0)
  {
    if Front(inp).None? then (s.(wait := ReadMessage), inp)
    else
      var request := !cfg.neg.resumed && cfg.certRequest && cfg.neg.certAuth;
      var h := Update(InitHash(s.h), Front(inp).value);
      var s' := s.(certRequest := request, secret := if cfg.neg.resumed then cr.sessionSecret else s.secret,
                   h := if request then h else FreeBuffer(h));
      (Goto(s', SendServerHello, Ok), inp[1..])
  }

  function ServerHelloStep(cfg: Config, s: Server): (s': Server)
    requires s.st == SendServerHello && s.wait == Ok
    ensures Moves(cfg, s, s')
  {
    Goto(Send(s, ServerHello(cfg.neg)), if cfg.neg.resumed then SendServerFinished else SendServerCertificate, Ok)
  }

  function ServerCertificateStep(cfg: Config, s: Server): (s': Server)
    requires s.st == SendServerCertificate && s.wait == Ok
    ensures Moves(cfg, s, s')
  {
    var s1 := if cfg.neg.certAuth then Send(s, Certificate(true)) else s;
    var s2 := if cfg.neg.certAuth && cfg.neg.status then Send(s1, CertificateStatus) else s1;
    Goto(s2.(keyParams := cfg.neg.requiresSke || (!cfg.neg.certAuth && cfg.pskHint)), SendServerKeyExchange, Ok)
  }

  function ServerKeyExchangeStep(cfg: Config, s: Server): (s': Server)
    requires s.st == SendServerKeyExchange && s.wait == Ok
    ensures Moves(cfg, s, s')
  {
    if !s.keyParams then Goto(s, SendServerHelloDone, Ok)
    else Goto(Send(s, ServerKeyExchange).(keyParams := false), SendServerHelloDone, Ok)
  }

  function ServerHelloDoneStep(cfg: Config, s: Server): (s': Server)
    requires s.st == SendServerHelloDone && s.wait == Ok
    ensures Moves(cfg, s, s')
  {
    var s1 := if s.certRequest then Send(s, CertificateRequest) else s;
    Goto(Send(s1, ServerHelloDone), ReadClientCertificate, Flush)
  }

  function ClientCertificateStep(cfg: Config, s: Server, inp: seq<Item>): (r: (Server, seq<Item>))
    requires s.st == ReadClientCertificate && s.wait == Ok
    ensures Moves(cfg, s, r.0)
  {
    if !s.certRequest then (Goto(s, VerifyClientCertificate, Ok), inp)
    else if Front(inp).None? then (s.(wait := ReadMessage), inp)
    else if !Front(inp).value.Certificate? then (s.(wait := Failed), inp)
    else
      var hashed := Hash(s, Front(inp).value);
      var s' := if Front(inp).value.present then hashed else hashed.(h := FreeBuffer(hashed.h));
      (Goto(s'.(peerKey := Front(inp).value.present), VerifyClientCertificate, Ok), inp[1..])
  }

  function ClientKeyExchangeStep(cr: Crypto, cfg: Config, s: Server, inp: seq<Item>): (r: (Server, seq<Item>))
    requires s.st == ReadClientKeyExchange && s.wait == Ok
    ensures Moves(cfg, s, r.0)
  {
    if Front(inp).None? then (s.(wait := ReadMessage), inp)
    else if !Front(inp).value.ClientKeyExchange? then (s.(wait := Failed), inp)
    else
      var hashed := Hash(s, Front(inp).value);
      (Goto(hashed.(secret := cr.derive(Hashed(hashed.h))), ReadClientCertificateVerify, Ok), inp[1..])
  }

  function CertificateVerifyStep(cr: Crypto, cfg: Config, s: Server, inp: seq<Item>): (r: (Server, seq<Item>))
    requires s.st == ReadClientCertificateVerify && s.wait == Ok
    ensures Moves(cfg, s, r.0)
  {
    if !s.peerKey then (Goto(s.(h := FreeBuffer(s.h)), ReadChangeCipherSpec, Ok), inp)
    else if Front(inp).None? then (s.(wait := ReadMessage), inp)
    else if !Front(inp).value.CertificateVerify? || s.h.buffer.None? then (s.(wait := Failed), inp)
    else if !cr.check(s.h.buffer.value, Front(inp).value.sig) then (s.(wait := Failed), inp)
    else (Goto(Hash(s.(h := FreeBuffer(s.h)), Front(inp).value), ReadChangeCipherSpec, Ok), inp[1..])
  }

  function NextProtoStep(cfg: Config, s: Server, inp: seq<Item>): (r: (Server, seq<Item>))
    requires s.st == ReadNextProto && s.wait == Ok
    ensures Moves(cfg, s, r.0)
  {
    if !cfg.neg.npn then (Goto(s, ReadChannelId, Ok), inp)
    else if Front(inp).None? then (s.(wait := ReadMessage), inp)
    else if !Front(inp).value.NextProto? then (s.(wait := Failed), inp)
    else (Goto(Hash(s, Front(inp).value), ReadChannelId, Ok), inp[1..])
  }

  function ChannelIdStep(cr: Crypto, cfg: Config, s: Server, inp: seq<Item>): (r: (Server, seq<Item>))
    requires s.st == ReadChannelId && s.wait == Ok
    ensures Moves(cfg, s, r.0)
  {
    if !cfg.neg.channelId then (Goto(s, ReadClientFinished, Ok), inp)
    else if Front(inp).None? then (s.(wait := ReadMessage), inp)
    else if !Front(inp).value.ChannelId? then (s.(wait := Failed), inp)
    else if !cr.checkId(Hashed(s.h), Front(inp).value.proof) then (s.(wait := Failed), inp)
    else (Goto(Hash(s, Front(inp).value), ReadClientFinished, Ok), inp[1..])
  }

  function ClientFinishedStep(cr: Crypto, cfg: Config, s: Server, inp: seq<Item>): (r: (Server, seq<Item>))
    requires s.st == ReadClientFinished && s.wait == Ok
    ensures Moves(cfg, s, r.0)
  {
    if Front(inp).None? then (s.(wait := ReadMessage), inp)
    else if Front(inp).value != Finished(cr.mac(s.secret, Hashed(s.h), false)) then (s.(wait := Failed), inp)
    else (Goto(Hash(s, Front(inp).value), if cfg.neg.resumed then FinishServerHandshake else SendServerFinished, Ok), inp[1..])
  }

  function ServerFinishedStep(cr: Crypto, cfg: Config, s: Server): (s': Server)
    requires s.st == SendServerFinished && s.wait == Ok
    ensures Moves(cfg, s, s')
  {
    var s1 := if cfg.neg.ticket then Send(s, NewSessionTicket(cfg.emptyTicket)) else s;
    var s2 := s1.(out := s1.out + [ChangeCipherSpec]);
    Goto(Send(s2, Finished(cr.mac(s2.secret, Hashed(s2.h), true))),
         if cfg.neg.resumed then ReadChangeCipherSpec else FinishServerHandshake, Flush)
  }

  /** What the state machine does in its present state. */
  function Do(cr: Crypto, cfg: Config, s: Server, inp: seq<Item>): (r: (Server, seq<Item>))
    requires s.wait == Ok
    ensures s.st != Done ==> Moves(cfg, s, r.0)
  {
    match s.st
    case StartAccept => (Goto(s, ReadClientHello, Ok), inp)
    case ReadClientHello => ClientHelloStep(cfg, s, inp)
    case SelectCertificate => SelectCertificateStep(cfg, s, inp)
    case SelectParameters => SelectParametersStep(cr, cfg, s, inp)
    case SendServerHello => (ServerHelloStep(cfg, s), inp)
    case SendServerCertificate => (ServerCertificateStep(cfg, s), inp)
    case SendServerKeyExchange => (ServerKeyExchangeStep(cfg, s), inp)
    case SendServerHelloDone => (ServerHelloDoneStep(cfg, s), inp)
    case ReadClientCertificate => ClientCertificateStep(cfg, s, inp)
    case VerifyClientCertificate => (Goto(s, ReadClientKeyExchange, Ok), inp)
    case ReadClientKeyExchange => ClientKeyExchangeStep(cr, cfg, s, inp)
    case ReadClientCertificateVerify => CertificateVerifyStep(cr, cfg, s, inp)
    case ReadChangeCipherSpec => (Goto(s, ProcessChangeCipherSpec, ReadCcs), inp)
    case ProcessChangeCipherSpec => (Goto(s, ReadNextProto, Ok), inp)
    case ReadNextProto => NextProtoStep(cfg, s, inp)
    case ReadChannelId => ChannelIdStep(cr, cfg, s, inp)
    case ReadClientFinished => ClientFinishedStep(cr, cfg, s, inp)
    case SendServerFinished => (ServerFinishedStep(cr, cfg, s), inp)
    case FinishServerHandshake => (Goto(s, Done, Ok), inp)
    case Done => (s, inp)
  }

  predicate Reads(st: State) {
    || st.ReadClientHello? || st.SelectCertificate? || st.SelectParameters? || st.ReadClientCertificate?
    || st.ReadClientKeyExchange? || st.ReadClientCertificateVerify? || st.ReadNextProto? || st.ReadChannelId?
    || st.ReadClientFinished?
  }

  /** There is a transcript: in the buffer until the ClientHello is in, and from then on as a hash. */
  predicate Begun(s: Server) {
    if s.st.ReadClientHello? || s.st.SelectCertificate? || s.st.SelectParameters? then s.h.hash.None? && s.h.buffer.Some?
    else s.h.hash.Some?
  }

  /** Waiting and failing change nothing, and the message at the front is taken whole or not at all. */
  predicate Outcome(s: Server, inp: seq<Item>, s': Server, inp': seq<Item>) {
    && s'.out == s.out
    && (s'.wait == ReadMessage ==> s' == s.(wait := ReadMessage) && inp' == inp && Front(inp).None?)
    && (s'.wait == Failed ==> s' == s.(wait := Failed) && inp' == inp && Front(inp).Some?)
    && (inp' == inp || (Front(inp).Some? && inp' == inp[1..]))
  }

  lemma EarlyOutcomes(cr: Crypto, cfg: Config, s: Server, inp: seq<Item>)
    requires s.wait == Ok && s.st in {ReadClientHello, SelectCertificate, SelectParameters, ReadClientCertificate}
    ensures var (s', inp') := Do(cr, cfg, s, inp); Outcome(s, inp, s', inp')
  {
    hide Moves, Rank, Hashed, Update, InitHash, FreeBuffer;
  }

  lemma LateOutcomes(cr: Crypto, cfg: Config, s: Server, inp: seq<Item>)
    requires s.wait == Ok
    requires s.st in {ReadClientKeyExchange, ReadClientCertificateVerify, ReadNextProto, ReadChannelId, ReadClientFinished}
    ensures var (s', inp') := Do(cr, cfg, s, inp); Outcome(s, inp, s', inp')
  {
    hide Moves, Rank, Hashed, Update, InitHash, FreeBuffer;
  }

  lemma Transcribed(cr: Crypto, cfg: Config, s: Server, inp: seq<Item>)
    requires s.wait == Ok && Reads(s.st) && Begun(s)
    ensures var (s', inp') := Do(cr, cfg, s, inp);
            Said(s'.h) == if |inp'| == |inp| then Said(s.h) else Said(s.h) + [inp[0].m]
  {
    hide Moves, Rank, Hashed, Update, InitHash, FreeBuffer, Said;
    if Front(inp).Some? {
      SaidUpdated(s.h, inp[0].m);
    } else {
      SaidUpdated(s.h, ClientHello);
    }
  }

  /**
   A state that reads waits only while there is no message, and fails only over a message that is there; either
   leaves everything as it was. Otherwise it takes the message whole, into the transcript, or not at all.
   */
  lemma OneMessage(cr: Crypto, cfg: Config, s: Server, inp: seq<Item>)
    requires s.wait == Ok && Reads(s.st)
    ensures var (s', inp') := Do(cr, cfg, s, inp);
            && Outcome(s, inp, s', inp')
            && (Begun(s) ==> Said(s'.h) == if inp' == inp then Said(s.h) else Said(s.h) + [inp[0].m])
  {
    hide Do, Said, Begun;
    if s.st in {ReadClientHello, SelectCertificate, SelectParameters, ReadClientCertificate} {
      EarlyOutcomes(cr, cfg, s, inp);
    } else {
      LateOutcomes(cr, cfg, s, inp);
    }
    if Begun(s) {
      Transcribed(cr, cfg, s, inp);
    }
  }

  /** The machine runs until it has to wait, has failed or is done. */
  function Run(cr: Crypto, cfg: Config, s: Server, inp: seq<Item>): (Server, seq<Item>)
    requires s.wait == Ok
    decreases Rank(cfg, s.st)
  {
    if s.st == Done then (s, inp)
    else
      var (s', inp') := Do(cr, cfg, s, inp);
      if s'.wait == Ok then Run(cr, cfg, s', inp') else (s', inp')
  }

  // ---------------------------------------------------------------- over mutable state

  class ServerHandshake {
    const cr: Crypto
    const cfg: Config
    var st: State
    var h: Hashes
    var out: seq<Item>
    var certRequest: bool
    var keyParams: bool
    var peerKey: bool
    var secret: nat

    ghost function View(wait: Wait): Server
      reads this
    {
      Server(st, wait, h, out, certRequest, keyParams, peerKey, secret)
    }

    constructor (cr: Crypto, cfg: Config)
      ensures View(Ok) == Start() && this.cr == cr && this.cfg == cfg
    {
      this.cr, this.cfg := cr, cfg;
      st, h, out := StartAccept, Hashes(Some([]), None), [];
      certRequest, keyParams, peerKey, secret := false, false, false, 0;
    }

    method AddMessage(m: Message)
      modifies this`h, this`out
      ensures h == Update(old(h), m) && out == old(out) + [Item.Handshake(m)]
    {
      h := Update(h, m);
      out := out + [Item.Handshake(m)];
    }

    method DoReadClientHello(inp: Channel) returns (ret: Wait)
      requires st == ReadClientHello
      modifies this, inp
      ensures (View(ret), inp.items) == ClientHelloStep(cfg, old(View(Ok)), old(inp.items))
    {
      var msg := inp.GetMessage();
      if msg.None? {
        return ReadMessage;
      }
      if !msg.value.ClientHello? {
        return Failed;
      }
      st := SelectCertificate;
      return Ok;
    }

    method DoSelectCertificate(inp: Channel) returns (ret: Wait)
      requires st == SelectCertificate
      modifies this, inp
      ensures (View(ret), inp.items) == SelectCertificateStep(cfg, old(View(Ok)), old(inp.items))
    {
      var msg := inp.GetMessage();
      if msg.None? {
        return ReadMessage;
      }
      st := SelectParameters;
      return Ok;
    }

    method DoSelectParameters(inp: Channel) returns (ret: Wait)
      requires st == SelectParameters
      modifies this, inp
      ensures (View(ret), inp.items) == SelectParametersStep(cr, cfg, old(View(Ok)), old(inp.items))
    {
      var msg := inp.GetMessage();
      if msg.None? {
        return ReadMessage;
      }
      certRequest := false;
      if cfg.neg.resumed {
        secret := cr.sessionSecret;
      } else {
        certRequest := cfg.certRequest;
        if !cfg.neg.certAuth {
          certRequest := false;
        }
      }
      h := Update(InitHash(h), msg.value);
      if !certRequest {
        h := FreeBuffer(h);
      }
      inp.NextMessage();
      st := SendServerHello;
      return Ok;
    }

    method DoSendServerHello() returns (ret: Wait)
      requires st == SendServerHello
      modifies this
      ensures View(ret) == ServerHelloStep(cfg, old(View(Ok)))
    {
      AddMessage(ServerHello(cfg.neg));
      if cfg.neg.resumed {
        st := SendServerFinished;
      } else {
        st := SendServerCertificate;
      }
      return Ok;
    }

    method DoSendServerCertificate() returns (ret: Wait)
      requires st == SendServerCertificate
      modifies this
      ensures View(ret) == ServerCertificateStep(cfg, old(View(Ok)))
    {
      if cfg.neg.certAuth {
        AddMessage(Certificate(true));
        if cfg.neg.status {
          AddMessage(CertificateStatus);
        }
      }
      keyParams := cfg.neg.requiresSke || (!cfg.neg.certAuth && cfg.pskHint);
      st := SendServerKeyExchange;
      return Ok;
    }

    method DoSendServerKeyExchange() returns (ret: Wait)
      requires st == SendServerKeyExchange
      modifies this
      ensures View(ret) == ServerKeyExchangeStep(cfg, old(View(Ok)))
    {
      if !keyParams {
        st := SendServerHelloDone;
        return Ok;
      }
      AddMessage(ServerKeyExchange);
      keyParams := false;
      st := SendServerHelloDone;
      return Ok;
    }

    method DoSendServerHelloDone() returns (ret: Wait)
      requires st == SendServerHelloDone
      modifies this
      ensures View(ret) == ServerHelloDoneStep(cfg, old(View(Ok)))
    {
      if certRequest {
        AddMessage(CertificateRequest);
      }
      AddMessage(ServerHelloDone);
      st := ReadClientCertificate;
      return Flush;
    }

    method DoReadClientCertificate(inp: Channel) returns (ret: Wait)
      requires st == ReadClientCertificate
      modifies this, inp
      ensures (View(ret), inp.items) == ClientCertificateStep(cfg, old(View(Ok)), old(inp.items))
    {
      if !certRequest {
        st := VerifyClientCertificate;
        return Ok;
      }
      var msg := inp.GetMessage();
      if msg.None? {
        return ReadMessage;
      }
      if !msg.value.Certificate? {
        return Failed;
      }
      h := Update(h, msg.value);
      peerKey := msg.value.present;
      if !msg.value.present {
        h := FreeBuffer(h);
      }
      inp.NextMessage();
      st := VerifyClientCertificate;
      return Ok;
    }

    method DoReadClientKeyExchange(inp: Channel) returns (ret: Wait)
      requires st == ReadClientKeyExchange
      modifies this, inp
      ensures (View(ret), inp.items) == ClientKeyExchangeStep(cr, cfg, old(View(Ok)), old(inp.items))
    {
      var msg := inp.GetMessage();
      if msg.None? {
        return ReadMessage;
      }
      if !msg.value.ClientKeyExchange? {
        return Failed;
      }
      h := Update(h, msg.value);
      secret := cr.derive(Hashed(h));
      inp.NextMessage();
      st := ReadClientCertificateVerify;
      return Ok;
    }

    method DoReadClientCertificateVerify(inp: Channel) returns (ret: Wait)
      requires st == ReadClientCertificateVerify
      modifies this, inp
      ensures (View(ret), inp.items) == CertificateVerifyStep(cr, cfg, old(View(Ok)), old(inp.items))
    {
      if !peerKey {
        h := FreeBuffer(h);
        st := ReadChangeCipherSpec;
        return Ok;
      }
      var msg := inp.GetMessage();
      if msg.None? {
        return ReadMessage;
      }
      if !msg.value.CertificateVerify? || h.buffer.None? {
        return Failed;
      }
      if !cr.check(h.buffer.value, msg.value.sig) {
        return Failed;
      }
      // The message is hashed only after its signature has been checked.
      h := FreeBuffer(h);
      h := Update(h, msg.value);
      inp.NextMessage();
      st := ReadChangeCipherSpec;
      return Ok;
    }

    method DoReadNextProto(inp: Channel) returns (ret: Wait)
      requires st == ReadNextProto
      modifies this, inp
      ensures (View(ret), inp.items) == NextProtoStep(cfg, old(View(Ok)), old(inp.items))
    {
      if !cfg.neg.npn {
        st := ReadChannelId;
        return Ok;
      }
      var msg := inp.GetMessage();
      if msg.None? {
        return ReadMessage;
      }
      if !msg.value.NextProto? {
        return Failed;
      }
      h := Update(h, msg.value);
      inp.NextMessage();
      st := ReadChannelId;
      return Ok;
    }

    method DoReadChannelId(inp: Channel) returns (ret: Wait)
      requires st == ReadChannelId
      modifies this, inp
      ensures (View(ret), inp.items) == ChannelIdStep(cr, cfg, old(View(Ok)), old(inp.items))
    {
      if !cfg.neg.channelId {
        st := ReadClientFinished;
        return Ok;
      }
      var msg := inp.GetMessage();
      if msg.None? {
        return ReadMessage;
      }
      if !msg.value.ChannelId? {
        return Failed;
      }
      if !cr.checkId(Hashed(h), msg.value.proof) {
        return Failed;
      }
      h := Update(h, msg.value);
      inp.NextMessage();
      st := ReadClientFinished;
      return Ok;
    }

    method DoReadClientFinished(inp: Channel) returns (ret: Wait)
      requires st == ReadClientFinished
      modifies this, inp
      ensures (View(ret), inp.items) == ClientFinishedStep(cr, cfg, old(View(Ok)), old(inp.items))
    {
      var msg := inp.GetMessage();
      if msg.None? {
        return ReadMessage;
      }
      if !msg.value.Finished? {
        return Failed;
      }
      var finished := cr.mac(secret, Hashed(h), false);
      if msg.value.mac != finished {
        return Failed;
      }
      h := Update(h, msg.value);
      inp.NextMessage();
      if cfg.neg.resumed {
        st := FinishServerHandshake;
      } else {
        st := SendServerFinished;
      }
      return Ok;
    }

    method DoSendServerFinished() returns (ret: Wait)
      requires st == SendServerFinished
      modifies this
      ensures View(ret) == ServerFinishedStep(cr, cfg, old(View(Ok)))
    {
      if cfg.neg.ticket {
        AddMessage(NewSessionTicket(cfg.emptyTicket));
      }
      out := out + [ChangeCipherSpec];
      AddMessage(Finished(cr.mac(secret, Hashed(h), true)));
      if cfg.neg.resumed {
        st := ReadChangeCipherSpec;
      } else {
        st := FinishServerHandshake;
      }
      return Flush;
    }

    /** Runs the states one after the other until something has to be waited for. */
    method Handshake(inp: Channel) returns (ret: Wait)
      modifies this, inp
      ensures (View(ret), inp.items) == Run(cr, cfg, old(View(Ok)), old(inp.items))
    {
      hide ClientHelloStep, SelectCertificateStep, SelectParametersStep, ServerHelloStep, ServerCertificateStep,
        ServerKeyExchangeStep, ServerHelloDoneStep, ClientCertificateStep, ClientKeyExchangeStep, CertificateVerifyStep,
        NextProtoStep, ChannelIdStep, ClientFinishedStep, ServerFinishedStep, Update;
      ret := Ok;
      while st != Done
        invariant Run(cr, cfg, old(View(Ok)), old(inp.items)) == Run(cr, cfg, View(Ok), inp.items)
        decreases Rank(cfg, st)
      {
        ghost var s, items := View(Ok), inp.items;
        match st {
          case StartAccept => st, ret := ReadClientHello, Ok;
          case ReadClientHello => ret := DoReadClientHello(inp);
          case SelectCertificate => ret := DoSelectCertificate(inp);
          case SelectParameters => ret := DoSelectParameters(inp);
          case SendServerHello => ret := DoSendServerHello();
          case SendServerCertificate => ret := DoSendServerCertificate();
          case SendServerKeyExchange => ret := DoSendServerKeyExchange();
          case SendServerHelloDone => ret := DoSendServerHelloDone();
          case ReadClientCertificate => ret := DoReadClientCertificate(inp);
          case VerifyClientCertificate => st, ret := ReadClientKeyExchange, Ok;
          case ReadClientKeyExchange => ret := DoReadClientKeyExchange(inp);
          case ReadClientCertificateVerify => ret := DoReadClientCertificateVerify(inp);
          case ReadChangeCipherSpec => st, ret := ProcessChangeCipherSpec, ReadCcs;
          case ProcessChangeCipherSpec => st, ret := ReadNextProto, Ok;
          case ReadNextProto => ret := DoReadNextProto(inp);
          case ReadChannelId => ret := DoReadChannelId(inp);
          case ReadClientFinished => ret := DoReadClientFinished(inp);
          case SendServerFinished => ret := DoSendServerFinished();
          case FinishServerHandshake => st, ret := Done, Ok;
        }
        assert (View(ret), inp.items) == Do(cr, cfg, s, items);
        if ret != Ok {
          return;
        }
      }
      ret := Ok;
    }
  }
}
