/**
 The loop around each state machine: it resolves what the machine waits for and runs it again. Everything
 it does is a sequence of that side's steps in the pair, so what holds of all schedules holds of it.
 */
module TlsDriver {
  import opened Prelude
  import opened TlsScript
  import opened TlsEndpoint
  import opened TlsPair
  import P = TlsProgress
  import C = TlsClient
  import S = TlsServer

  /** A schedule in which one side makes `n` moves. */
  function Moves(client: bool, n: nat): seq<bool> {
    if n == 0 then [] else Moves(client, n - 1) + [client]
  }

  lemma {:induction false} ExecSnoc(cr: Crypto, cfg: Config, p: Pair, schedule: seq<bool>, client: bool)
    ensures Exec(cr, cfg, p, schedule + [client]) == Step(cr, cfg, Exec(cr, cfg, p, schedule), client)
    decreases |schedule|
  {
    hide Step;
    if schedule == [] {
      assert [client][1..] == [];
    } else {
      assert (schedule + [client])[1..] == schedule[1..] + [client];
      ExecSnoc(cr, cfg, Step(cr, cfg, p, schedule[0]), schedule[1..], client);
    }
  }

  lemma OneMore(cr: Crypto, cfg: Config, p: Pair, client: bool, n: nat)
    ensures Exec(cr, cfg, p, Moves(client, n + 1)) == Step(cr, cfg, Exec(cr, cfg, p, Moves(client, n)), client)
  {
    ExecSnoc(cr, cfg, p, Moves(client, n), client);
  }

  /** A run of the client's machine, from where `n` moves have led, is some further moves. */
  lemma {:induction false} ClientRunIsMoves(cr: Crypto, cfg: Config, p: Pair, n: nat, q: Pair) returns (m: nat)
    requires q == Exec(cr, cfg, p, Moves(true, n)) && q.c.wait == Ok
    ensures var (c', rest) := C.Run(cr, cfg.clientCert, q.c, q.toClient);
            Exec(cr, cfg, p, Moves(true, m)) == q.(c := c', toClient := rest)
    decreases C.Rank(q.c)
  {
    hide C.Do, Exec, Moves;
    if q.c.st == C.Done {
      m := n;
    } else {
      OneMore(cr, cfg, p, true, n);
      var q' := Step(cr, cfg, q, true);
      if q'.c.wait == Ok {
        P.ClientDo(cr, cfg.clientCert, q.c, q.toClient);
        m := ClientRunIsMoves(cr, cfg, p, n + 1, q');
      } else {
        m := n + 1;
      }
    }
  }

  lemma {:induction false} ServerRunIsMoves(cr: Crypto, cfg: Config, p: Pair, n: nat, q: Pair) returns (m: nat)
    requires q == Exec(cr, cfg, p, Moves(false, n)) && q.s.wait == Ok
    ensures var (s', rest) := S.Run(cr, cfg, q.s, q.toServer);
            Exec(cr, cfg, p, Moves(false, m)) == q.(s := s', toServer := rest)
    decreases S.Rank(cfg, q.s.st)
  {
    hide S.Do, Exec, Moves;
    if q.s.st == S.Done {
      m := n;
    } else {
      OneMore(cr, cfg, p, false, n);
      var q' := Step(cr, cfg, q, false);
      if q'.s.wait == Ok {
        P.ServerDo(cr, cfg, q.s, q.toServer);
        m := ServerRunIsMoves(cr, cfg, p, n + 1, q');
      } else {
        m := n + 1;
      }
    }
  }

  /**
   When a message has arrived for a waiting machine, taking the wait off and running is a move and then a run.
   */
  lemma ClientResumeIsMoves(cr: Crypto, cfg: Config, p: Pair, n: nat, q: Pair) returns (m: nat)
    requires q == Exec(cr, cfg, p, Moves(true, n)) && q.c.wait == ReadMessage && q.c.st != C.Done
    requires q.toClient != [] && q.toClient[0].Handshake?
    ensures var (c', rest) := C.Run(cr, cfg.clientCert, q.c.(wait := Ok), q.toClient);
            Exec(cr, cfg, p, Moves(true, m)) == q.(c := c', toClient := rest)
  {
    hide C.Do, Exec, Moves;
    OneMore(cr, cfg, p, true, n);
    var q' := Step(cr, cfg, q, true);
    if q'.c.wait == Ok {
      m := ClientRunIsMoves(cr, cfg, p, n + 1, q');
    } else {
      m := n + 1;
    }
  }

  lemma ServerResumeIsMoves(cr: Crypto, cfg: Config, p: Pair, n: nat, q: Pair) returns (m: nat)
    requires q == Exec(cr, cfg, p, Moves(false, n)) && q.s.wait == ReadMessage && q.s.st != S.Done
    requires q.toServer != [] && q.toServer[0].Handshake?
    ensures var (s', rest) := S.Run(cr, cfg, q.s.(wait := Ok), q.toServer);
            Exec(cr, cfg, p, Moves(false, m)) == q.(s := s', toServer := rest)
  {
    hide S.Do, Exec, Moves;
    OneMore(cr, cfg, p, false, n);
    var q' := Step(cr, cfg, q, false);
    if q'.s.wait == Ok {
      m := ServerRunIsMoves(cr, cfg, p, n + 1, q');
    } else {
      m := n + 1;
    }
  }

  lemma NoMoves(cr: Crypto, cfg: Config, p: Pair, client: bool)
    ensures Exec(cr, cfg, p, Moves(client, 0)) == p
  {
  }

  /** From any state the pair can reach, no number of moves by one side makes either fail. */
  lemma MovesSucceed(cr: Crypto, cfg: Config, p: Pair, client: bool, m: nat)
    requires Inv(cr, cfg, p) && SignaturesOk(cr)
    ensures var q := Exec(cr, cfg, p, Moves(client, m)); Inv(cr, cfg, q) && NeitherFailed(q)
  {
    hide Inv, Exec, Moves, SignaturesOk;
    ExecInv(cr, cfg, p, Moves(client, m));
    InvNoFailure(cr, cfg, Exec(cr, cfg, p, Moves(client, m)));
  }

  /** A run of the client's machine gets further, unless there is nothing to read. */
  lemma {:induction false} ClientRunRank(cr: Crypto, hasCert: bool, c: C.Client, inp: seq<Item>)
    requires c.wait == Ok
    ensures var c' := C.Run(cr, hasCert, c, inp).0;
            && C.Rank(c') <= C.Rank(c)
            && (c'.wait == Flush || c'.wait == ReadCcs ==> C.Rank(c') < C.Rank(c))
            && (Front(inp).Some? && c.st != C.Done ==> C.Rank(c') < C.Rank(c) || c'.wait == Failed)
            && (c'.wait == Ok ==> c'.st == C.Done) && (c'.wait != Ok ==> c.st != C.Done)
            && (c'.wait == ReadMessage ==> c'.st != C.Done)
    decreases C.Rank(c)
  {
    hide C.Do, C.Rank;
    if c.st != C.Done {
      P.ClientDo(cr, hasCert, c, inp);
      var d := C.Do(cr, hasCert, c, inp).0;
      P.RankBySt(c, d);
      if d.wait == Ok {
        ClientRunRank(cr, hasCert, C.Do(cr, hasCert, c, inp).0, C.Do(cr, hasCert, c, inp).1);
      } else {
        ClientDoneIsLast(cr, hasCert, c, inp);
      }
    }
  }

  lemma ClientDoneIsLast(cr: Crypto, hasCert: bool, c: C.Client, inp: seq<Item>)
    requires c.wait == Ok && c.st != C.Done
    ensures C.Do(cr, hasCert, c, inp).0.wait != Ok ==> C.Do(cr, hasCert, c, inp).0.st != C.Done
  {
  }

  /** Writes items of the flight while there is room. */
  method WriteClient(hs: C.ClientHandshake, inp: Channel, wire: Channel, writable: nat,
                     cfg: Config, ghost p: Pair, ghost m0: nat)
    returns (room: nat, ghost m: nat)
    requires inp != wire && Exec(hs.cr, cfg, p, Moves(true, m0)) == Pair(hs.View(Flush), p.s, wire.items, inp.items)
    modifies hs`out, wire
    ensures Exec(hs.cr, cfg, p, Moves(true, m)) == Pair(hs.View(Flush), p.s, wire.items, inp.items)
    ensures hs.out == [] || room == 0
  {
    hide C.Do, Exec, Moves;
    room, m := writable, m0;
    while hs.out != [] && room > 0
      invariant Exec(hs.cr, cfg, p, Moves(true, m)) == Pair(hs.View(Flush), p.s, wire.items, inp.items)
      decreases room
    {
      OneMore(hs.cr, cfg, p, true, m);
      wire.items := wire.items + [hs.out[0]];
      hs.out := hs.out[1..];
      room, m := room - 1, m + 1;
    }
  }

  /**
   Resolves what the client waits for, as far as the transport allows. `ready` says the machine can be run again.
   */
  method ResolveClient(hs: C.ClientHandshake, wait0: Wait, inp: Channel, wire: Channel, writable: nat,
                       cfg: Config, ghost p: Pair, ghost m0: nat)
    returns (ready: bool, wait: Wait, room: nat, ghost m: nat)
    requires inp != wire && Exec(hs.cr, cfg, p, Moves(true, m0)) == Pair(hs.View(wait0), p.s, wire.items, inp.items)
    modifies hs`out, inp, wire
    ensures Exec(hs.cr, cfg, p, Moves(true, m)) == Pair(hs.View(wait), p.s, wire.items, inp.items)
    ensures ready ==> if wait0 == ReadMessage then wait == ReadMessage && Front(inp.items).Some? else wait == Ok
    ensures !ready ==>
              wait == Failed || !Enabled(Pair(hs.View(wait), p.s, wire.items, inp.items), true)
              || (wait == Flush && hs.out != [] && room == 0)
  {
    hide C.Do, Exec, Moves;
    ready, wait, room, m := false, wait0, writable, m0;
    if wait == Ok {
      ready := true;
    } else if wait == Flush {
      room, m := WriteClient(hs, inp, wire, room, cfg, p, m);
      if hs.out == [] {
        OneMore(hs.cr, cfg, p, true, m);
        ready, wait, m := true, Ok, m + 1;
      }
    } else if wait != Failed && inp.items != [] {
      if wait == ReadMessage && inp.items[0].Handshake? {
        ready := true;
      } else {
        OneMore(hs.cr, cfg, p, true, m);
        m := m + 1;
        if wait == ReadMessage || inp.items[0].Handshake? {
          wait := Failed;
        } else {
          inp.NextMessage();
          ready, wait := true, Ok;
        }
      }
    }
  }

  /**
   Runs the client until it is done, has failed, or waits for the transport: `writable` more items can be
   written now, and only what is in `inp` can be read.
   */
  method RunClient(hs: C.ClientHandshake, wait0: Wait, inp: Channel, wire: Channel, writable: nat,
                   cfg: Config, ghost p: Pair)
    returns (wait: Wait, ghost m: nat)
    requires inp != wire && hs.hasCert == cfg.clientCert
    requires p.c == hs.View(wait0) && p.toClient == inp.items && p.toServer == wire.items
    requires wait0 == ReadMessage ==> hs.st != C.Done
    modifies hs, inp, wire
    ensures Exec(hs.cr, cfg, p, Moves(true, m)) == Pair(hs.View(wait), p.s, wire.items, inp.items)
    ensures wait == Failed || !Enabled(Exec(hs.cr, cfg, p, Moves(true, m)), true) || (wait == Flush && hs.out != [])
  {
    hide C.Do, C.Run, Exec, Moves, C.Rank;
    wait, m := wait0, 0;
    var room, ready := writable, true;
    NoMoves(hs.cr, cfg, p, true);
    while true
      invariant Exec(hs.cr, cfg, p, Moves(true, m)) == Pair(hs.View(wait), p.s, wire.items, inp.items)
      invariant wait == ReadMessage ==> hs.st != C.Done
      decreases C.Rank(hs.View(Ok)), if wait == ReadMessage then 0 else 1
    {
      ghost var before := hs.View(Ok);
      ready, wait, room, m := ResolveClient(hs, wait, inp, wire, room, cfg, p, m);
      if !ready {
        return;
      }
      P.RankBySt(before, hs.View(Ok));
      ClientRunRank(hs.cr, hs.hasCert, hs.View(Ok), inp.items);
      ghost var q := Pair(hs.View(wait), p.s, wire.items, inp.items);
      if wait == ReadMessage {
        m := ClientResumeIsMoves(hs.cr, cfg, p, m, q);
      } else {
        m := ClientRunIsMoves(hs.cr, cfg, p, m, q);
      }
      wait := hs.Handshake(inp);
      if wait == Failed || wait == Ok {
        return;
      }
      P.RankBySt(hs.View(wait), hs.View(Ok));
    }
  }

  /** A run of the server's machine gets further, unless there is nothing to read. */
  lemma {:induction false} ServerRunRank(cr: Crypto, cfg: Config, c: S.Server, inp: seq<Item>)
    requires c.wait == Ok
    ensures var c' := S.Run(cr, cfg, c, inp).0;
            && S.Rank(cfg, c'.st) <= S.Rank(cfg, c.st)
            && (c'.wait == Flush || c'.wait == ReadCcs ==> S.Rank(cfg, c'.st) < S.Rank(cfg, c.st))
            && (Front(inp).Some? && c.st != S.Done ==> S.Rank(cfg, c'.st) < S.Rank(cfg, c.st) || c'.wait == Failed)
            && (c'.wait == Ok ==> c'.st == S.Done) && (c'.wait != Ok ==> c.st != S.Done)
            && (c'.wait == ReadMessage ==> c'.st != S.Done)
    decreases S.Rank(cfg, c.st)
  {
    hide S.Do, S.Rank;
    if c.st != S.Done {
      P.ServerDo(cr, cfg, c, inp);
      var d := S.Do(cr, cfg, c, inp).0;
      if d.wait == Ok {
        ServerRunRank(cr, cfg, S.Do(cr, cfg, c, inp).0, S.Do(cr, cfg, c, inp).1);
      } else {
        ServerDoneIsLast(cr, cfg, c, inp);
      }
    }
  }

  lemma ServerDoneIsLast(cr: Crypto, cfg: Config, c: S.Server, inp: seq<Item>)
    requires c.wait == Ok && c.st != S.Done
    ensures S.Do(cr, cfg, c, inp).0.wait != Ok ==> S.Do(cr, cfg, c, inp).0.st != S.Done
  {
  }

  /** Writes items of the flight while there is room. */
  method WriteServer(hs: S.ServerHandshake, inp: Channel, wire: Channel, writable: nat,
                     cfg: Config, ghost p: Pair, ghost m0: nat)
    returns (room: nat, ghost m: nat)
    requires inp != wire && Exec(hs.cr, cfg, p, Moves(false, m0)) == Pair(p.c, hs.View(Flush), inp.items, wire.items)
    modifies hs`out, wire
    ensures Exec(hs.cr, cfg, p, Moves(false, m)) == Pair(p.c, hs.View(Flush), inp.items, wire.items)
    ensures hs.out == [] || room == 0
  {
    hide S.Do, Exec, Moves;
    room, m := writable, m0;
    while hs.out != [] && room > 0
      invariant Exec(hs.cr, cfg, p, Moves(false, m)) == Pair(p.c, hs.View(Flush), inp.items, wire.items)
      decreases room
    {
      OneMore(hs.cr, cfg, p, false, m);
      wire.items := wire.items + [hs.out[0]];
      hs.out := hs.out[1..];
      room, m := room - 1, m + 1;
    }
  }

  /**
   Resolves what the server waits for, as far as the transport allows. `ready` says the machine can be run again.
   */
  method ResolveServer(hs: S.ServerHandshake, wait0: Wait, inp: Channel, wire: Channel, writable: nat,
                       cfg: Config, ghost p: Pair, ghost m0: nat)
    returns (ready: bool, wait: Wait, room: nat, ghost m: nat)
    requires inp != wire && Exec(hs.cr, cfg, p, Moves(false, m0)) == Pair(p.c, hs.View(wait0), inp.items, wire.items)
    modifies hs`out, inp, wire
    ensures Exec(hs.cr, cfg, p, Moves(false, m)) == Pair(p.c, hs.View(wait), inp.items, wire.items)
    ensures ready ==> if wait0 == ReadMessage then wait == ReadMessage && Front(inp.items).Some? else wait == Ok
    ensures !ready ==>
              wait == Failed || !Enabled(Pair(p.c, hs.View(wait), inp.items, wire.items), false)
              || (wait == Flush && hs.out != [] && room == 0)
  {
    hide S.Do, Exec, Moves;
    ready, wait, room, m := false, wait0, writable, m0;
    if wait == Ok {
      ready := true;
    } else if wait == Flush {
      room, m := WriteServer(hs, inp, wire, room, cfg, p, m);
      if hs.out == [] {
        OneMore(hs.cr, cfg, p, false, m);
        ready, wait, m := true, Ok, m + 1;
      }
    } else if wait != Failed && inp.items != [] {
      if wait == ReadMessage && inp.items[0].Handshake? {
        ready := true;
      } else {
        OneMore(hs.cr, cfg, p, false, m);
        m := m + 1;
        if wait == ReadMessage || inp.items[0].Handshake? {
          wait := Failed;
        } else {
          inp.NextMessage();
          ready, wait := true, Ok;
        }
      }
    }
  }

  /**
   Runs the server until it is done, has failed, or waits for the transport: `writable` more items can be
   written now, and only what is in `inp` can be read.
   */
  method RunServer(hs: S.ServerHandshake, wait0: Wait, inp: Channel, wire: Channel, writable: nat,
                   cfg: Config, ghost p: Pair)
    returns (wait: Wait, ghost m: nat)
    requires inp != wire && hs.cfg == cfg
    requires p.s == hs.View(wait0) && p.toServer == inp.items && p.toClient == wire.items
    requires wait0 == ReadMessage ==> hs.st != S.Done
    modifies hs, inp, wire
    ensures Exec(hs.cr, cfg, p, Moves(false, m)) == Pair(p.c, hs.View(wait), inp.items, wire.items)
    ensures wait == Failed || !Enabled(Exec(hs.cr, cfg, p, Moves(false, m)), false) || (wait == Flush && hs.out != [])
  {
    hide S.Do, S.Run, Exec, Moves, S.Rank;
    wait, m := wait0, 0;
    var room, ready := writable, true;
    NoMoves(hs.cr, cfg, p, false);
    while true
      invariant Exec(hs.cr, cfg, p, Moves(false, m)) == Pair(p.c, hs.View(wait), inp.items, wire.items)
      invariant wait == ReadMessage ==> hs.st != S.Done
      decreases S.Rank(cfg, hs.st), if wait == ReadMessage then 0 else 1
    {
      ready, wait, room, m := ResolveServer(hs, wait, inp, wire, room, cfg, p, m);
      if !ready {
        return;
      }
      ServerRunRank(hs.cr, cfg, hs.View(Ok), inp.items);
      ghost var q := Pair(p.c, hs.View(wait), inp.items, wire.items);
      if wait == ReadMessage {
        m := ServerResumeIsMoves(hs.cr, cfg, p, m, q);
      } else {
        m := ServerRunIsMoves(hs.cr, cfg, p, m, q);
      }
      wait := hs.Handshake(inp);
      if wait == Failed || wait == Ok {
        return;
      }
    }
  }
}
