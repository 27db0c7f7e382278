/**
 A TLS 1.2 client and server that agree on the negotiated choices, over two channels, in every
 interleaving: no unexpected message, no failed check, no deadlock, and both finish.
 */
module TlsPair {
  import opened Prelude
  import opened TlsScript
  import opened TlsEndpoint
  import C = TlsClient
  import S = TlsServer
  import CS = TlsClientSteps
  import SS = TlsServerSteps

  /** The two sides, and what has been written by one and not yet read by the other. */
  datatype Pair = Pair(c: C.Client, s: S.Server, toServer: seq<Item>, toClient: seq<Item>)

  function Start(): Pair {
    Pair(C.Start(), S.Start(), [], [])
  }

  /**
   One step of the client: it writes an item of its flight, resolves what it waits for, or runs its state
   machine. When there is nothing to read the step changes nothing.
   */
  function StepClient(cr: Crypto, cfg: Config, p: Pair): Pair {
    match p.c.wait
    case Failed => p
    case Flush =>
      if p.c.out == [] then p.(c := p.c.(wait := Ok))
      else p.(c := p.c.(out := p.c.out[1..]), toServer := p.toServer + [p.c.out[0]])
    case ReadMessage =>
      if p.toClient == [] then p
      else if p.toClient[0].ChangeCipherSpec? then p.(c := p.c.(wait := Failed))
      else
        var (c', rest) := C.Do(cr, cfg.clientCert, p.c.(wait := Ok), p.toClient);
        p.(c := c', toClient := rest)
    case ReadCcs =>
      if p.toClient == [] then p
      else if p.toClient[0].Handshake? then p.(c := p.c.(wait := Failed))
      else p.(c := p.c.(wait := Ok), toClient := p.toClient[1..])
    case Ok =>
      var (c', rest) := C.Do(cr, cfg.clientCert, p.c, p.toClient);
      p.(c := c', toClient := rest)
  }

  function StepServer(cr: Crypto, cfg: Config, p: Pair): Pair {
    match p.s.wait
    case Failed => p
    case Flush =>
      if p.s.out == [] then p.(s := p.s.(wait := Ok))
      else p.(s := p.s.(out := p.s.out[1..]), toClient := p.toClient + [p.s.out[0]])
    case ReadMessage =>
      if p.toServer == [] then p
      else if p.toServer[0].ChangeCipherSpec? then p.(s := p.s.(wait := Failed))
      else
        var (s', rest) := S.Do(cr, cfg, p.s.(wait := Ok), p.toServer);
        p.(s := s', toServer := rest)
    case ReadCcs =>
      if p.toServer == [] then p
      else if p.toServer[0].Handshake? then p.(s := p.s.(wait := Failed))
      else p.(s := p.s.(wait := Ok), toServer := p.toServer[1..])
    case Ok =>
      var (s', rest) := S.Do(cr, cfg, p.s, p.toServer);
      p.(s := s', toServer := rest)
  }

  function Step(cr: Crypto, cfg: Config, p: Pair, client: bool): Pair {
    if client then StepClient(cr, cfg, p) else StepServer(cr, cfg, p)
  }

  /** A schedule says who moves. */
  function Exec(cr: Crypto, cfg: Config, p: Pair, schedule: seq<bool>): Pair
    decreases |schedule|
  {
    if schedule == [] then p else Exec(cr, cfg, Step(cr, cfg, p, schedule[0]), schedule[1..])
  }

  predicate BothDone(p: Pair) {
    p.c.st == C.Done && p.s.st == S.Done
  }

  predicate NeitherFailed(p: Pair) {
    p.c.wait != Failed && p.s.wait != Failed
  }

  /** Each side is at its place in the script, and the channels carry what lies between. */
  predicate Inv(cr: Crypto, cfg: Config, p: Pair) {
    && CS.Inv(cr, cfg, p.c, SS.Place(cfg, p.s.st, p.s.wait), p.toServer, p.toClient, p.s.out)
    && SS.Inv(cr, cfg, p.s, CS.Place(cfg, p.c.st, p.c.wait), p.toClient, p.toServer, p.c.out)
  }

  lemma InvStart(cr: Crypto, cfg: Config)
    requires ValidConfig(cfg)
    ensures Inv(cr, cfg, Start())
  {
    hide Content, Present;
    assert Items(cr, cfg, 0, 0) == [];
  }

  lemma ClientStepInv(cr: Crypto, cfg: Config, p: Pair)
    requires Inv(cr, cfg, p)
    ensures Inv(cr, cfg, StepClient(cr, cfg, p))
  {
    hide CS.Facts, SS.Facts, Wire, Trans, CS.Place, SS.Place, C.Do, Said;
    var j := SS.Place(cfg, p.s.st, p.s.wait);
    var p' := StepClient(cr, cfg, p);
    ClientKeeps(cr, cfg, p, j);
    WireFlip(cr, cfg, true, CS.Place(cfg, p'.c.st, p'.c.wait), j, p'.toServer, p'.c.out, p'.toClient, p'.s.out);
  }

  lemma ClientKeeps(cr: Crypto, cfg: Config, p: Pair, j: nat)
    requires CS.Inv(cr, cfg, p.c, j, p.toServer, p.toClient, p.s.out)
    ensures var p' := StepClient(cr, cfg, p);
            CS.Inv(cr, cfg, p'.c, j, p'.toServer, p'.toClient, p'.s.out) && p'.s == p.s
  {
    hide At, C.Do, CS.Place, Said, Script, ValidConfig, Trans;
    match p.c.wait {
      case Failed =>
      case Flush => ClientFlush(cr, cfg, p, j);
      case ReadMessage =>
        if p.toClient != [] {
          ClientResumes(cr, cfg, p.c, j, p.toServer, p.toClient, p.s.out);
          CS.StepAny(cr, cfg, p.c.(wait := Ok), j, p.toServer, p.toClient, p.s.out);
          CS.NextMessage(cr, cfg, p.c, j, p.toServer, p.toClient, p.s.out);
        }
      case ReadCcs =>
        if p.toClient != [] {
          CS.StepChangeCipherSpec(cr, cfg, p.c, j, p.toServer, p.toClient, p.s.out);
        }
      case Ok => CS.StepAny(cr, cfg, p.c, j, p.toServer, p.toClient, p.s.out);
    }
  }

  lemma ClientFlush(cr: Crypto, cfg: Config, p: Pair, j: nat)
    requires CS.Inv(cr, cfg, p.c, j, p.toServer, p.toClient, p.s.out) && p.c.wait == Flush
    ensures var p' := StepClient(cr, cfg, p);
            CS.Inv(cr, cfg, p'.c, j, p'.toServer, p'.toClient, p'.s.out) && p'.s == p.s
  {
    hide Wire, Trans, Script;
    if p.c.out != [] {
      WireFlush(cr, cfg, true, CS.Place(cfg, p.c.st, p.c.wait), j, p.toServer, p.c.out, p.toClient, p.s.out);
    }
  }

  lemma ClientResumes(cr: Crypto, cfg: Config, c: C.Client, j: nat, w: seq<Item>, w': seq<Item>, o': seq<Item>)
    requires CS.Inv(cr, cfg, c, j, w, w', o') && c.wait == ReadMessage
    ensures CS.Inv(cr, cfg, c.(wait := Ok), j, w, w', o')
  {
    hide At, Trans, Script;
  }

  lemma ServerStepInv(cr: Crypto, cfg: Config, p: Pair)
    requires Inv(cr, cfg, p) && SignaturesOk(cr)
    ensures Inv(cr, cfg, StepServer(cr, cfg, p))
  {
    hide CS.Facts, SS.Facts, Wire, Trans, CS.Place, SS.Place, S.Do, Said, SignaturesOk;
    var j := CS.Place(cfg, p.c.st, p.c.wait);
    var p' := StepServer(cr, cfg, p);
    ServerKeeps(cr, cfg, p, j);
    WireFlip(cr, cfg, false, SS.Place(cfg, p'.s.st, p'.s.wait), j, p'.toClient, p'.s.out, p'.toServer, p'.c.out);
  }

  lemma ServerKeeps(cr: Crypto, cfg: Config, p: Pair, j: nat)
    requires SS.Inv(cr, cfg, p.s, j, p.toClient, p.toServer, p.c.out) && SignaturesOk(cr)
    ensures var p' := StepServer(cr, cfg, p);
            SS.Inv(cr, cfg, p'.s, j, p'.toClient, p'.toServer, p'.c.out) && p'.c == p.c
  {
    hide At, S.Do, SS.Place, Said, Script, ValidConfig, Trans, SignaturesOk;
    match p.s.wait {
      case Failed =>
      case Flush => ServerFlush(cr, cfg, p, j);
      case ReadMessage =>
        if p.toServer != [] {
          ServerResumes(cr, cfg, p.s, j, p.toClient, p.toServer, p.c.out);
          SS.StepAny(cr, cfg, p.s.(wait := Ok), j, p.toClient, p.toServer, p.c.out);
          SS.NextMessage(cr, cfg, p.s, j, p.toClient, p.toServer, p.c.out);
        }
      case ReadCcs =>
        if p.toServer != [] {
          SS.StepChangeCipherSpec(cr, cfg, p.s, j, p.toClient, p.toServer, p.c.out);
        }
      case Ok => SS.StepAny(cr, cfg, p.s, j, p.toClient, p.toServer, p.c.out);
    }
  }

  lemma ServerFlush(cr: Crypto, cfg: Config, p: Pair, j: nat)
    requires SS.Inv(cr, cfg, p.s, j, p.toClient, p.toServer, p.c.out) && p.s.wait == Flush
    ensures var p' := StepServer(cr, cfg, p);
            SS.Inv(cr, cfg, p'.s, j, p'.toClient, p'.toServer, p'.c.out) && p'.c == p.c
  {
    hide Wire, Trans, Script;
    if p.s.out != [] {
      WireFlush(cr, cfg, false, SS.Place(cfg, p.s.st, p.s.wait), j, p.toClient, p.s.out, p.toServer, p.c.out);
    }
  }

  lemma ServerResumes(cr: Crypto, cfg: Config, s: S.Server, j: nat, w: seq<Item>, w': seq<Item>, o': seq<Item>)
    requires SS.Inv(cr, cfg, s, j, w, w', o') && s.wait == ReadMessage
    ensures SS.Inv(cr, cfg, s.(wait := Ok), j, w, w', o')
  {
    hide At, Trans, Script, ValidConfig, Said, SS.NeedsBuffer, SS.BeforeHash, SS.BeforeClientCert, SS.AfterClientCert;
    assert SS.Place(cfg, s.st, Ok) == SS.Place(cfg, s.st, s.wait);
  }

  lemma StepInv(cr: Crypto, cfg: Config, p: Pair, client: bool)
    requires Inv(cr, cfg, p) && SignaturesOk(cr)
    ensures Inv(cr, cfg, Step(cr, cfg, p, client))
  {
    hide Inv, StepClient, StepServer, SignaturesOk;
    if client {
      ClientStepInv(cr, cfg, p);
    } else {
      ServerStepInv(cr, cfg, p);
    }
  }

  lemma {:induction false} ExecInv(cr: Crypto, cfg: Config, p: Pair, schedule: seq<bool>)
    requires Inv(cr, cfg, p) && SignaturesOk(cr)
    ensures Inv(cr, cfg, Exec(cr, cfg, p, schedule))
    decreases |schedule|
  {
    hide Inv, Step, SignaturesOk;
    if schedule != [] {
      StepInv(cr, cfg, p, schedule[0]);
      ExecInv(cr, cfg, Step(cr, cfg, p, schedule[0]), schedule[1..]);
    }
  }

  lemma InvNoFailure(cr: Crypto, cfg: Config, p: Pair)
    requires Inv(cr, cfg, p)
    ensures NeitherFailed(p)
  {
    hide At, Trans, Script, Said;
  }

  /** In no interleaving does either side meet an unexpected message, a bad signature or a wrong Finished. */
  lemma NoFailure(cr: Crypto, cfg: Config, schedule: seq<bool>)
    requires ValidConfig(cfg) && SignaturesOk(cr)
    ensures NeitherFailed(Exec(cr, cfg, Start(), schedule))
  {
    hide Inv, Exec, SignaturesOk;
    InvStart(cr, cfg);
    ExecInv(cr, cfg, Start(), schedule);
    InvNoFailure(cr, cfg, Exec(cr, cfg, Start(), schedule));
  }

  // ---------------------------------------------------------------- what the two sides agree on

  /**
   Where it matters the two transcripts are equal: under the master secret; at the CertificateVerify, where
   both still have the transcript in full; and at the end.
   */
  lemma TranscriptsAgree(cr: Crypto, cfg: Config, schedule: seq<bool>)
    requires ValidConfig(cfg) && SignaturesOk(cr)
    ensures var p := Exec(cr, cfg, Start(), schedule);
            var keyed := Trans(cr, cfg, KEYED);
            && (!cfg.neg.resumed && CS.Place(cfg, p.c.st, p.c.wait) >= KEYED ==> p.c.secret == cr.derive(keyed))
            && (!cfg.neg.resumed && SS.Place(cfg, p.s.st, p.s.wait) >= KEYED ==> p.s.secret == cr.derive(keyed))
            && (p.c.st == C.SendClientCertificateVerify && p.c.certRequest && cfg.clientCert ==> p.c.h.buffer == Some(keyed))
            && (p.s.st == S.ReadClientCertificateVerify && p.s.peerKey ==> p.s.h.buffer == Some(keyed))
            && (BothDone(p) ==> p.c.h.hash.Some? && p.c.h.hash == p.s.h.hash && p.c.secret == p.s.secret)
  {
    hide Inv, Exec, SignaturesOk, Trans;
    InvStart(cr, cfg);
    ExecInv(cr, cfg, Start(), schedule);
    InvAgrees(cr, cfg, Exec(cr, cfg, Start(), schedule));
  }

  lemma InvAgrees(cr: Crypto, cfg: Config, p: Pair)
    requires Inv(cr, cfg, p)
    ensures var keyed := Trans(cr, cfg, KEYED);
            && (!cfg.neg.resumed && CS.Place(cfg, p.c.st, p.c.wait) >= KEYED ==> p.c.secret == cr.derive(keyed))
            && (!cfg.neg.resumed && SS.Place(cfg, p.s.st, p.s.wait) >= KEYED ==> p.s.secret == cr.derive(keyed))
            && (p.c.st == C.SendClientCertificateVerify && p.c.certRequest && cfg.clientCert ==> p.c.h.buffer == Some(keyed))
            && (p.s.st == S.ReadClientCertificateVerify && p.s.peerKey ==> p.s.h.buffer == Some(keyed))
            && (BothDone(p) ==> p.c.h.hash.Some? && p.c.h.hash == p.s.h.hash && p.c.secret == p.s.secret)
  {
    hide Wire, Trans;
  }

  /** At every moment of every run one side's transcript is a prefix of the other's. */
  lemma OneTranscript(cr: Crypto, cfg: Config, schedule: seq<bool>)
    requires ValidConfig(cfg) && SignaturesOk(cr)
    ensures var p := Exec(cr, cfg, Start(), schedule); Said(p.c.h) <= Said(p.s.h) || Said(p.s.h) <= Said(p.c.h)
  {
    hide Inv, Exec, SignaturesOk, Trans, Said;
    var p := Exec(cr, cfg, Start(), schedule);
    InvStart(cr, cfg);
    ExecInv(cr, cfg, Start(), schedule);
    InvPlaces(cr, cfg, p);
    var i, j := CS.Place(cfg, p.c.st, p.c.wait), SS.Place(cfg, p.s.st, p.s.wait);
    if i <= j {
      TransGrows(cr, cfg, i, j);
    } else {
      TransGrows(cr, cfg, j, i);
    }
  }

  lemma InvPlaces(cr: Crypto, cfg: Config, p: Pair)
    requires Inv(cr, cfg, p)
    ensures CS.Place(cfg, p.c.st, p.c.wait) <= |Script(cfg)| && Said(p.c.h) == Trans(cr, cfg, CS.Place(cfg, p.c.st, p.c.wait))
    ensures SS.Place(cfg, p.s.st, p.s.wait) <= |Script(cfg)| && Said(p.s.h) == Trans(cr, cfg, SS.Place(cfg, p.s.st, p.s.wait))
  {
    hide Wire, Trans, CS.Place, SS.Place, Said, Script;
  }

  /**
   The Finished that reaches a side was made over exactly the transcript that side has when it checks it, with
   the same secret: not only is the check passed, the two transcripts are equal.
   */
  lemma FinishedChecks(cr: Crypto, cfg: Config, schedule: seq<bool>)
    requires ValidConfig(cfg) && SignaturesOk(cr)
    ensures var p := Exec(cr, cfg, Start(), schedule);
            var i, j := if cfg.neg.resumed then 8 else 13, if cfg.neg.resumed then 4 else 16;
            && j <= |Script(cfg)| && i <= |Script(cfg)|
            && (p.s.st == S.ReadClientFinished && p.toServer != [] ==>
                  Said(p.s.h) == Trans(cr, cfg, i)
                  && p.toServer[0] == Item.Handshake(Finished(cr.mac(p.s.secret, Said(p.s.h), false))))
            && (p.c.st == C.ReadServerFinished && p.toClient != [] ==>
                  Said(p.c.h) == Trans(cr, cfg, j)
                  && p.toClient[0] == Item.Handshake(Finished(cr.mac(p.c.secret, Said(p.c.h), true))))
  {
    hide Inv, Exec, SignaturesOk, Trans, Said;
    var p := Exec(cr, cfg, Start(), schedule);
    InvStart(cr, cfg);
    ExecInv(cr, cfg, Start(), schedule);
    if p.s.st == S.ReadClientFinished && p.toServer != [] {
      ClientFinishedArrives(cr, cfg, p);
    }
    if p.c.st == C.ReadServerFinished && p.toClient != [] {
      ServerFinishedArrives(cr, cfg, p);
    }
  }

  lemma ClientFinishedArrives(cr: Crypto, cfg: Config, p: Pair)
    requires Inv(cr, cfg, p) && p.s.st == S.ReadClientFinished && p.toServer != []
    ensures var i := if cfg.neg.resumed then 8 else 13;
            && i <= |Script(cfg)| && Said(p.s.h) == Trans(cr, cfg, i)
            && p.toServer[0] == Item.Handshake(Finished(cr.mac(p.s.secret, Said(p.s.h), false)))
  {
    hide Wire, Trans, Secret, Script, Content, Present, CS.Facts, Said;
    var i, j := SS.Place(cfg, p.s.st, p.s.wait), CS.Place(cfg, p.c.st, p.c.wait);
    SS.LastPlaces(cr, cfg, i - 3);
    ReceiveAt(cr, cfg, false, i, j, p.toClient, p.s.out, p.toServer, p.c.out, Said(p.s.h));
  }

  lemma ServerFinishedArrives(cr: Crypto, cfg: Config, p: Pair)
    requires Inv(cr, cfg, p) && p.c.st == C.ReadServerFinished && p.toClient != []
    ensures var i := if cfg.neg.resumed then 4 else 16;
            && i <= |Script(cfg)| && Said(p.c.h) == Trans(cr, cfg, i)
            && p.toClient[0] == Item.Handshake(Finished(cr.mac(p.c.secret, Said(p.c.h), true)))
  {
    hide Wire, Trans, Secret, Script, Content, Present, SS.Facts, Said;
    var i, j := CS.Place(cfg, p.c.st, p.c.wait), SS.Place(cfg, p.s.st, p.s.wait);
    CS.FinishedPlace(cr, cfg, i);
    ReceiveAt(cr, cfg, true, i, j, p.toServer, p.c.out, p.toClient, p.s.out, Said(p.c.h));
  }

  // ---------------------------------------------------------------- progress

  /** A side that is done, or that waits for input that is not there, cannot move. */
  predicate Enabled(p: Pair, client: bool) {
    if client then !(p.c.st == C.Done && p.c.wait == Ok) && !((p.c.wait == ReadMessage || p.c.wait == ReadCcs) && p.toClient == [])
    else !(p.s.st == S.Done && p.s.wait == Ok) && !((p.s.wait == ReadMessage || p.s.wait == ReadCcs) && p.toServer == [])
  }

  /** Until both are done, one of them can move. */
  lemma NoDeadlock(cr: Crypto, cfg: Config, p: Pair)
    requires Inv(cr, cfg, p)
    ensures Enabled(p, true) || Enabled(p, false) || BothDone(p)
  {
    hide Script, Trans, Items, FirstFrom, CS.Place, SS.Place, Said;
    if !Enabled(p, true) && !Enabled(p, false) {
      var i, j := CS.Place(cfg, p.c.st, p.c.wait), SS.Place(cfg, p.s.st, p.s.wait);
      CS.TurnWhenWaiting(cr, cfg, p.c);
      SS.TurnWhenWaiting(cr, cfg, p.s);
      QuietClient(cr, cfg, p);
      QuietServer(cr, cfg, p);
      DonePlaces(cfg);
      if i > j {
        FirstFromSame(cr, cfg, j, i);
      } else if i < j {
        FirstFromSame(cr, cfg, i, j);
      }
    }
  }

  lemma DonePlaces(cfg: Config)
    ensures forall w :: CS.Place(cfg, C.Done, w) == |Script(cfg)| && SS.Place(cfg, S.Done, w) == |Script(cfg)|
  {
  }

  /** A client that cannot move has written everything, and has nothing to read or is done. */
  lemma QuietClient(cr: Crypto, cfg: Config, p: Pair)
    requires CS.Facts(cr, cfg, p.c) && !Enabled(p, true)
    ensures p.c.out == [] && (p.c.st == C.Done || (p.toClient == [] && (p.c.wait == ReadMessage || p.c.wait == ReadCcs)))
  {
    hide Trans, Script;
  }

  lemma QuietServer(cr: Crypto, cfg: Config, p: Pair)
    requires SS.Facts(cr, cfg, p.s) && !Enabled(p, false)
    ensures p.s.out == [] && (p.s.st == S.Done || (p.toServer == [] && (p.s.wait == ReadMessage || p.s.wait == ReadCcs)))
  {
    hide Trans, Script;
  }
}
