/** The session printer, which appends to a builder, and the parser, which advances a cursor and fills in fields. */
module SslSessionIo {
  import opened Prelude
  import opened SslSession

  class Builder {
    var toks: seq<Tok>

    constructor ()
      ensures toks == []
    {
      toks := [];
    }

    method Add(tag: Tag, body: Body)
      modifies this
      ensures toks == old(toks) + [Tok(tag, body)]
    {
      toks := toks + [Tok(tag, body)];
    }

    /** Appends an optional element; `rest` stands for what will follow. */
    method AddOptional(n: nat, body: Option<Body>, ghost rest: seq<Tok>)
      modifies this
      ensures toks + rest == old(toks) + Emit(n, body, rest)
    {
      if body.Some? {
        Add(Context(n), body.value);
      }
    }

    method AddHead(s: Session, forTicket: bool, ghost rest: seq<Tok>)
      modifies this
      ensures toks + rest == old(toks) + PrintHead(s, forTicket, rest)
    {
      Add(Integer, Number(1));
      Add(Integer, Number(s.sslVersion));
      Add(OctetString, Octets(Big16(s.cipher)));
      Add(OctetString, Octets(if forTicket then [] else s.sessionId));
      Add(OctetString, Octets(s.masterKey));
      Add(Context(1), Number(s.time));
      Add(Context(2), Number(s.timeout));
    }

    method AddPeer(s: Session, forTicket: bool, ghost rest: seq<Tok>)
      modifies this
      ensures toks + rest == old(toks) + PrintPeer(s, forTicket, rest)
    {
      hide Emit;
      ghost var t10 := Emit(10, OctetsOf(if forTicket then None else s.ticket), rest);
      ghost var t9 := Emit(9, If(s.lifetimeHint > 0, Number(s.lifetimeHint)), t10);
      ghost var t8 := Emit(8, OctetsOf(s.pskIdentity), t9);
      ghost var t5 := Emit(5, If(s.verifyResult != 0, Number(s.verifyResult % U64)), t8);
      ghost var t4 := Emit(4, OctetsOf(Some(s.sidCtx)), t5);
      AddOptional(3, RawOf(LeafOf(s)), t4);
      AddOptional(4, OctetsOf(Some(s.sidCtx)), t5);
      AddOptional(5, If(s.verifyResult != 0, Number(s.verifyResult % U64)), t8);
      AddOptional(8, OctetsOf(s.pskIdentity), t9);
      AddOptional(9, If(s.lifetimeHint > 0, Number(s.lifetimeHint)), t10);
      AddOptional(10, OctetsOf(if forTicket then None else s.ticket), rest);
    }

    method AddAuth(s: Session, ghost rest: seq<Tok>)
      modifies this
      ensures toks + rest == old(toks) + PrintAuth(s, rest)
    {
      hide Emit;
      ghost var t19 := Emit(19, ChainBody(ChainOf(s)), rest);
      ghost var t18 := Emit(18, If(s.groupId > 0, Number(s.groupId)), t19);
      ghost var t17 := Emit(17, TruthUnless(s.extendedMasterSecret, false), t18);
      ghost var t16 := Emit(16, OctetsOf(s.ocspResponse), t17);
      ghost var t15 := Emit(15, OctetsOf(s.sctList), t16);
      ghost var t14 := Emit(14, OctetsIfAny(s.handshakeHash), t15);
      AddOptional(13, OctetsOf(s.peerSha256), t14);
      AddOptional(14, OctetsIfAny(s.handshakeHash), t15);
      AddOptional(15, OctetsOf(s.sctList), t16);
      AddOptional(16, OctetsOf(s.ocspResponse), t17);
      AddOptional(17, TruthUnless(s.extendedMasterSecret, false), t18);
      AddOptional(18, If(s.groupId > 0, Number(s.groupId)), t19);
      AddOptional(19, ChainBody(ChainOf(s)), rest);
    }

    method AddTicket(s: Session, ghost rest: seq<Tok>)
      modifies this
      ensures toks + rest == old(toks) + PrintTicket(s, rest)
    {
      hide Emit;
      ghost var t26 := Emit(26, OctetsOf(s.earlyAlpn), rest);
      ghost var t25 := Emit(25, If(s.timeout != s.authTimeout, Number(s.authTimeout)), t26);
      ghost var t24 := Emit(24, If(s.maxEarlyData != 0, Number(s.maxEarlyData)), t25);
      ghost var t23 := Emit(23, If(s.peerSignatureAlgorithm != 0, Number(s.peerSignatureAlgorithm)), t24);
      ghost var t22 := Emit(22, TruthUnless(s.isServer, true), t23);
      AddOptional(21, OctetsOf(AgeBytes(s.ticketAgeAdd)), t22);
      AddOptional(22, TruthUnless(s.isServer, true), t23);
      AddOptional(23, If(s.peerSignatureAlgorithm != 0, Number(s.peerSignatureAlgorithm)), t24);
      AddOptional(24, If(s.maxEarlyData != 0, Number(s.maxEarlyData)), t25);
      AddOptional(25, If(s.timeout != s.authTimeout, Number(s.authTimeout)), t26);
      AddOptional(26, OctetsOf(s.earlyAlpn), rest);
    }

    method ToBytes(s: Session, forTicket: bool)
      modifies this
      ensures toks == old(toks) + Print(s, forTicket)
    {
      hide PrintHead, PrintPeer, PrintAuth, PrintTicket;
      ghost var ticket := PrintTicket(s, []);
      ghost var auth := PrintAuth(s, ticket);
      AddHead(s, forTicket, PrintPeer(s, forTicket, auth));
      AddPeer(s, forTicket, auth);
      AddAuth(s, ticket);
      AddTicket(s, []);
      assert toks + [] == toks;
    }
  }

  predicate Took<T(==)>(r: Got<T>, ok: bool, value: T, rest: seq<Tok>) {
    (ok <==> r.Good?) && (ok ==> value == r.value && rest == r.rest)
  }

  class Cursor {
    var toks: seq<Tok>

    constructor (toks: seq<Tok>)
      ensures this.toks == toks
    {
      this.toks := toks;
    }

    method Next(tag: Tag) returns (ok: bool, body: Body)
      modifies this
      ensures Took(Get(old(toks), tag), ok, body, toks)
      ensures !ok ==> toks == old(toks)
    {
      body := Number(0);
      ok := toks != [] && toks[0].tag == tag;
      if ok {
        body := toks[0].body;
        toks := toks[1..];
      }
    }

    method NextNumber(tag: Tag) returns (ok: bool, n: nat)
      modifies this
      ensures Took(GetNumber(old(toks), tag), ok, n, toks)
    {
      var body: Body;
      ok, body := Next(tag);
      n := 0;
      if ok {
        ok := body.Number? && body.n < U64;
        n := if ok then body.n else 0;
      }
    }

    method NextOctets(tag: Tag, max: nat) returns (ok: bool, b: seq<u8>)
      modifies this
      ensures Took(GetOctets(old(toks), tag, max), ok, b, toks)
    {
      var body: Body;
      ok, body := Next(tag);
      b := [];
      if ok {
        ok := body.Octets? && |body.b| <= max;
        b := if ok then body.b else [];
      }
    }

    /** An optional element; the cursor stays where it is when the tag is another. */
    method Optional(n: nat) returns (body: Option<Body>)
      modifies this
      ensures Opt(old(toks), n) == Good(body, toks)
    {
      var ok, b := Next(Context(n));
      return if ok then Some(b) else None;
    }

    method OptionalOctets(n: nat) returns (ok: bool, b: Option<seq<u8>>)
      modifies this
      ensures Took(OptOctets(old(toks), n), ok, b, toks)
    {
      var body := Optional(n);
      if body.None? {
        return true, None;
      }
      if !body.value.Octets? {
        return false, None;
      }
      return true, Some(body.value.b);
    }

    method OptionalNumber(n: nat, max: nat, default: nat) returns (ok: bool, v: nat)
      modifies this
      ensures Took(OptNumber(old(toks), n, max, default), ok, v, toks)
    {
      var body := Optional(n);
      if body.None? {
        return true, default;
      }
      if !body.value.Number? || body.value.n > max {
        return false, 0;
      }
      return true, body.value.n;
    }

    method OptionalBool(n: nat, default: bool) returns (ok: bool, t: bool)
      modifies this
      ensures Took(OptBool(old(toks), n, default), ok, t, toks)
    {
      var body := Optional(n);
      if body.None? {
        return true, default;
      }
      if !body.value.Truth? {
        return false, false;
      }
      return true, body.value.t;
    }

    method OptionalLeaf(n: nat) returns (ok: bool, leaf: Option<seq<u8>>)
      modifies this
      ensures Took(OptRaw(old(toks), n), ok, leaf, toks)
    {
      var body := Optional(n);
      if body.None? {
        return true, None;
      }
      if !body.value.Raw? || body.value.r == [] {
        return false, None;
      }
      return true, Some(body.value.r);
    }

    method OptionalChain(n: nat) returns (ok: bool, chain: Option<seq<seq<u8>>>)
      modifies this
      ensures Took(OptChain(old(toks), n), ok, chain, toks)
    {
      var body := Optional(n);
      if body.None? {
        return true, None;
      }
      if !body.value.Chain? || body.value.certs == [] || [] in body.value.certs {
        return false, None;
      }
      return true, Some(body.value.certs);
    }

    method ReadHead(k: Known) returns (ok: bool, h: Head)
      modifies this
      ensures Took(ParseHead(k, old(toks)), ok, h, toks)
    {
      hide GetNumber, GetOctets;
      h := Head(0, 0, [], [], 0, 0);
      var version: nat, ssl: nat, time: nat, timeout: nat;
      var cipher: seq<u8>, id: seq<u8>, key: seq<u8>;
      ok, version := NextNumber(Integer);
      if !ok { return; }
      ok, ssl := NextNumber(Integer);
      if !ok { return; }
      ok, cipher := NextOctets(OctetString, 2);
      if !ok { return; }
      ok, id := NextOctets(OctetString, MAX_SESSION_ID);
      if !ok { return; }
      ok, key := NextOctets(OctetString, MAX_MASTER_KEY);
      if !ok { return; }
      ok, time := NextNumber(Context(1));
      if !ok { return; }
      ok, timeout := NextNumber(Context(2));
      if !ok { return; }
      if version != 1 || ssl >= U16 || !k.version(ssl) || |cipher| != 2 || timeout >= U32 {
        return false, h;
      }
      var value := cipher[0] as int * 256 + cipher[1] as int;
      if !k.cipher(value) {
        return false, h;
      }
      h := Head(ssl, value, id, key, time, timeout);
    }

    method ReadPeer() returns (ok: bool, p: Peer)
      modifies this
      ensures Took(ParsePeer(old(toks)), ok, p, toks)
    {
      hide OptOctets, OptNumber, OptRaw, Opt;
      p := Peer(None, [], 0, None, 0, None);
      var leaf: Option<seq<u8>>, sid: Option<seq<u8>>, psk: Option<seq<u8>>, ticket: Option<seq<u8>>;
      var verify: nat, hint: nat;
      ok, leaf := OptionalLeaf(3);
      if !ok { return; }
      ok, sid := OptionalOctets(4);
      if !ok { return; }
      ok, verify := OptionalNumber(5, LONG_MAX, 0);
      if !ok { return; }
      // The historical host name is stepped over.
      var _ := Optional(6);
      ok, psk := OptionalOctets(8);
      if !ok { return; }
      ok, hint := OptionalNumber(9, U32 - 1, 0);
      if !ok { return; }
      ok, ticket := OptionalOctets(10);
      if !ok { return; }
      if |OrEmpty(sid)| > MAX_SID_CTX || (psk.Some? && 0 in psk.value) {
        return false, p;
      }
      p := Peer(leaf, OrEmpty(sid), verify, psk, hint, NonEmpty(ticket));
    }

    method ReadAuth(hasLeaf: bool) returns (ok: bool, a: Auth)
      modifies this
      ensures Took(ParseAuth(hasLeaf, old(toks)), ok, a, toks)
    {
      hide OptOctets, OptNumber, OptBool, OptChain;
      a := Auth(None, [], None, None, false, 0, None);
      var sha: Option<seq<u8>>, hash: Option<seq<u8>>, sct: Option<seq<u8>>, ocsp: Option<seq<u8>>;
      var ems: bool, group: nat, chain: Option<seq<seq<u8>>>;
      ok, sha := OptionalOctets(13);
      if !ok { return; }
      ok, hash := OptionalOctets(14);
      if !ok { return; }
      ok, sct := OptionalOctets(15);
      if !ok { return; }
      ok, ocsp := OptionalOctets(16);
      if !ok { return; }
      ok, ems := OptionalBool(17, false);
      if !ok { return; }
      ok, group := OptionalNumber(18, U16 - 1, 0);
      if !ok { return; }
      ok, chain := OptionalChain(19);
      if !ok { return; }
      if (sha.Some? && |sha.value| != SHA256_LEN) || |OrEmpty(hash)| > MAX_HASH || (chain.Some? && !hasLeaf) {
        return false, a;
      }
      a := Auth(sha, OrEmpty(hash), sct, ocsp, ems, group, chain);
    }

    method ReadTicket(timeout: nat) returns (ok: bool, t: Ticket)
      modifies this
      ensures Took(ParseTicket(timeout, old(toks)), ok, t, toks)
    {
      hide OptOctets, OptNumber, OptBool, FromBig32;
      t := Ticket(None, true, 0, 0, 0, None);
      var age: Option<seq<u8>>, alpn: Option<seq<u8>>, server: bool;
      var alg: nat, early: nat, auth: nat;
      ok, age := OptionalOctets(21);
      if !ok { return; }
      ok, server := OptionalBool(22, true);
      if !ok { return; }
      ok, alg := OptionalNumber(23, U16 - 1, 0);
      if !ok { return; }
      ok, early := OptionalNumber(24, U32 - 1, 0);
      if !ok { return; }
      ok, auth := OptionalNumber(25, U32 - 1, timeout);
      if !ok { return; }
      ok, alpn := OptionalOctets(26);
      if !ok { return; }
      if age.Some? && |age.value| != 4 {
        return false, t;
      }
      t := Ticket(if age.Some? then Some(FromBig32(age.value)) else None, server, alg, early, auth, NonEmpty(alpn));
    }

    /** Pushes the certificates one by one. */
    method CollectCerts(leaf: Option<seq<u8>>, chain: Option<seq<seq<u8>>>) returns (certs: seq<seq<u8>>)
      ensures certs == Certs(leaf, chain)
    {
      certs := [];
      if leaf.Some? {
        certs := certs + [leaf.value];
      }
      if chain.Some? {
        ghost var before := certs;
        for i := 0 to |chain.value|
          invariant certs == before + chain.value[..i]
        {
          certs := certs + [chain.value[i]];
        }
        assert chain.value[..|chain.value|] == chain.value;
      }
    }

    /** Reads a session; what was printed is read back, in its normal form, or refused for one of four reasons. */
    method ParseSession(k: Known) returns (s: Option<Session>)
      modifies this
      ensures s == Parse(k, old(toks))
      ensures forall x: Session, forTicket: bool :: Typed(x) && old(toks) == Print(x, forTicket) ==>
                s == if k.version(x.sslVersion) && k.cipher(x.cipher) && x.verifyResult >= 0 && k.certs(Norm(x, forTicket).certs)
                     then Some(Norm(x, forTicket)) else None
    {
      hide ParseHead, ParsePeer, ParseAuth, ParseTicket, Certs, Print;
      forall x: Session, forTicket: bool | Typed(x) && toks == Print(x, forTicket)
        ensures Parse(k, toks)
             == if k.version(x.sslVersion) && k.cipher(x.cipher) && x.verifyResult >= 0 && k.certs(Norm(x, forTicket).certs)
                then Some(Norm(x, forTicket)) else None
      {
        RoundTrip(k, x, forTicket);
      }
      var ok: bool, h: Head, p: Peer, a: Auth, t: Ticket;
      ok, h := ReadHead(k);
      if !ok { return None; }
      ok, p := ReadPeer();
      if !ok { return None; }
      ok, a := ReadAuth(p.leaf.Some?);
      if !ok { return None; }
      var certs := CollectCerts(p.leaf, a.chain);
      if !k.certs(certs) { return None; }
      ok, t := ReadTicket(h.timeout);
      if !ok || toks != [] { return None; }
      return Some(Assembled(h, p, a, t));
    }
  }
}
