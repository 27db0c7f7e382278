/** The handshake ends: every step that can be taken brings both sides closer to being done. */
module TlsProgress {
  import opened Prelude
  import opened TlsScript
  import opened TlsEndpoint
  import opened TlsPair
  import C = TlsClient
  import S = TlsServer
  import CS = TlsClientSteps
  import SS = TlsServerSteps

  function Weight(w: Wait): nat {
    match w case Flush => 3 case ReadCcs => 3 case Ok => 2 case ReadMessage => 1 case Failed => 0
  }

  /** How far there is to go: the state of each side in its order of the run, then its wait and unwritten items. */
  function Measure(cfg: Config, p: Pair): nat {
    32 * C.Rank(p.c) + Weight(p.c.wait) + |p.c.out| + 32 * S.Rank(cfg, p.s.st) + Weight(p.s.wait) + |p.s.out|
  }

  lemma ClientDo(cr: Crypto, hasCert: bool, c: C.Client, inp: seq<Item>)
    requires c.wait == Ok && c.st != C.Done
    ensures var c' := C.Do(cr, hasCert, c, inp).0;
            && |c'.out| <= |c.out| + 4
            && (Front(inp).Some? ==> c'.wait != ReadMessage)
            && C.Moves(c, c')
  {
    hide C.Rank, C.Moves, C.ServerHelloStep, C.ServerCertificateStep, C.CertificateStatusStep, C.ServerKeyExchangeStep,
      C.CertificateRequestStep, C.ServerHelloDoneStep, C.SessionTicketStep, C.ServerFinishedStep, Update, InitHash, FreeBuffer,
      Hashed;
    if C.Reads(c.st) {
      C.OneMessage(cr, hasCert, c, inp);
    }
  }

  lemma ServerDo(cr: Crypto, cfg: Config, s: S.Server, inp: seq<Item>)
    requires s.wait == Ok && s.st != S.Done
    ensures var s' := S.Do(cr, cfg, s, inp).0;
            && |s'.out| <= |s.out| + 4
            && (Front(inp).Some? ==> s'.wait != ReadMessage)
            && S.Moves(cfg, s, s')
  {
    hide S.Rank, S.Moves, S.ClientHelloStep, S.SelectCertificateStep, S.SelectParametersStep, S.ClientCertificateStep,
      S.ClientKeyExchangeStep, S.CertificateVerifyStep, S.NextProtoStep, S.ChannelIdStep, S.ClientFinishedStep, Update,
      InitHash, FreeBuffer, Hashed;
    if S.Reads(s.st) {
      S.OneMessage(cr, cfg, s, inp);
    }
  }

  lemma ClientCloser(cr: Crypto, cfg: Config, p: Pair)
    requires NeitherFailed(p) && NeitherFailed(StepClient(cr, cfg, p)) && Enabled(p, true)
    requires p.c.wait == ReadMessage ==> p.c.st != C.Done
    ensures Measure(cfg, StepClient(cr, cfg, p)) < Measure(cfg, p)
  {
    hide C.Do, C.Rank, S.Rank;
    if p.c.wait == Ok {
      ClientDo(cr, cfg.clientCert, p.c, p.toClient);
    } else if p.c.wait == ReadMessage {
      ClientDo(cr, cfg.clientCert, p.c.(wait := Ok), p.toClient);
    }
    RankBySt(p.c, p.c.(wait := Ok));
    RankBySt(p.c, StepClient(cr, cfg, p).c);
  }

  lemma RankBySt(c: C.Client, d: C.Client)
    ensures c.st == d.st && c.neg == d.neg ==> C.Rank(c) == C.Rank(d)
  {
  }

  lemma ServerCloser(cr: Crypto, cfg: Config, p: Pair)
    requires NeitherFailed(p) && NeitherFailed(StepServer(cr, cfg, p)) && Enabled(p, false)
    requires p.s.wait == ReadMessage ==> p.s.st != S.Done
    ensures Measure(cfg, StepServer(cr, cfg, p)) < Measure(cfg, p)
  {
    hide S.Do, C.Rank, S.Rank;
    if p.s.wait == Ok {
      ServerDo(cr, cfg, p.s, p.toServer);
    } else if p.s.wait == ReadMessage {
      ServerDo(cr, cfg, p.s.(wait := Ok), p.toServer);
    }
  }

  lemma StepCloser(cr: Crypto, cfg: Config, p: Pair, client: bool)
    requires Inv(cr, cfg, p) && SignaturesOk(cr) && Enabled(p, client)
    ensures Inv(cr, cfg, Step(cr, cfg, p, client)) && Measure(cfg, Step(cr, cfg, p, client)) < Measure(cfg, p)
  {
    hide Inv, StepClient, StepServer, Enabled, Measure, SignaturesOk;
    StepInv(cr, cfg, p, client);
    InvNoFailure(cr, cfg, p);
    InvNoFailure(cr, cfg, Step(cr, cfg, p, client));
    DoneNotReading(cr, cfg, p);
    if client {
      ClientCloser(cr, cfg, p);
    } else {
      ServerCloser(cr, cfg, p);
    }
  }

  lemma DoneNotReading(cr: Crypto, cfg: Config, p: Pair)
    requires Inv(cr, cfg, p)
    ensures p.c.wait == ReadMessage ==> p.c.st != C.Done
    ensures p.s.wait == ReadMessage ==> p.s.st != S.Done
  {
    hide At, Trans, Script, Said;
  }

  /** A schedule that only moves a side that can move. */
  predicate Moving(cr: Crypto, cfg: Config, p: Pair, schedule: seq<bool>)
    decreases |schedule|
  {
    schedule == [] || (Enabled(p, schedule[0]) && Moving(cr, cfg, Step(cr, cfg, p, schedule[0]), schedule[1..]))
  }

  lemma {:induction false} MovingBound(cr: Crypto, cfg: Config, p: Pair, schedule: seq<bool>)
    requires Inv(cr, cfg, p) && SignaturesOk(cr) && Moving(cr, cfg, p, schedule)
    ensures |schedule| + Measure(cfg, Exec(cr, cfg, p, schedule)) <= Measure(cfg, p)
    decreases |schedule|
  {
    hide Inv, Step, Enabled, Measure, SignaturesOk;
    if schedule != [] {
      StepCloser(cr, cfg, p, schedule[0]);
      MovingBound(cr, cfg, Step(cr, cfg, p, schedule[0]), schedule[1..]);
    }
  }

  /**
   However the two sides are scheduled, they can only make a bounded number of moves, and when neither can
   move any more both are done, with equal transcripts and the same secret.
   */
  lemma HandshakeCompletes(cr: Crypto, cfg: Config, schedule: seq<bool>)
    requires ValidConfig(cfg) && SignaturesOk(cr) && Moving(cr, cfg, Start(), schedule)
    ensures |schedule| <= Measure(cfg, Start())
    ensures var p := Exec(cr, cfg, Start(), schedule);
            !Enabled(p, true) && !Enabled(p, false) ==>
              BothDone(p) && p.c.h.hash.Some? && p.c.h.hash == p.s.h.hash && p.c.secret == p.s.secret
  {
    hide Inv, Exec, Enabled, Measure, SignaturesOk, Trans, Moving;
    InvStart(cr, cfg);
    MovingBound(cr, cfg, Start(), schedule);
    ExecInv(cr, cfg, Start(), schedule);
    NoDeadlock(cr, cfg, Exec(cr, cfg, Start(), schedule));
    InvAgrees(cr, cfg, Exec(cr, cfg, Start(), schedule));
  }

  /** From wherever a run has got to, some schedule brings both sides to the end. */
  lemma {:induction false} CanComplete(cr: Crypto, cfg: Config, p: Pair) returns (schedule: seq<bool>)
    requires Inv(cr, cfg, p) && SignaturesOk(cr)
    ensures BothDone(Exec(cr, cfg, p, schedule))
    decreases Measure(cfg, p)
  {
    hide Inv, Step, Enabled, Measure, SignaturesOk;
    if BothDone(p) {
      schedule := [];
    } else {
      NoDeadlock(cr, cfg, p);
      var client := Enabled(p, true);
      StepCloser(cr, cfg, p, client);
      var rest := CanComplete(cr, cfg, Step(cr, cfg, p, client));
      schedule := [client] + rest;
      assert schedule[1..] == rest;
    }
  }
}
