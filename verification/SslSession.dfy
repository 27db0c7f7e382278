/** Printing and parsing of sessions, over a list of tagged elements. */
module SslSession {
  import opened Prelude

  const U16 := 0x1_0000
  const U32 := 0x1_0000_0000
  const U64 := 0x1_0000_0000_0000_0000
  const LONG_MAX := 0x7FFF_FFFF_FFFF_FFFF
  const MAX_SESSION_ID := 32
  const MAX_MASTER_KEY := 48
  const MAX_SID_CTX := 32
  const MAX_HASH := 64
  const SHA256_LEN := 32

  datatype Tag = Integer | OctetString | Context(n: nat)

  /** The contents of an element: an integer, an octet string, a boolean, bare bytes, or certificates one after the other. */
  datatype Body = Number(n: nat) | Octets(b: seq<u8>) | Truth(t: bool) | Raw(r: seq<u8>) | Chain(certs: seq<seq<u8>>)

  datatype Tok = Tok(tag: Tag, body: Body)

  datatype Session = Session(
    sslVersion: nat, cipher: nat, sessionId: seq<u8>, masterKey: seq<u8>, time: nat, timeout: nat,
    certs: seq<seq<u8>>, sidCtx: seq<u8>, verifyResult: int, pskIdentity: Option<seq<u8>>, lifetimeHint: nat,
    ticket: Option<seq<u8>>, peerSha256: Option<seq<u8>>, handshakeHash: seq<u8>, sctList: Option<seq<u8>>,
    ocspResponse: Option<seq<u8>>, extendedMasterSecret: bool, groupId: nat, ticketAgeAdd: Option<nat>, isServer: bool,
    peerSignatureAlgorithm: nat, maxEarlyData: nat, authTimeout: nat, earlyAlpn: Option<seq<u8>>)

  /** The bounds that the fields' types give. Certificates and C strings are as they come from elsewhere. */
  predicate Typed(s: Session) {
    && s.sslVersion < U16 && s.cipher < U16 && |s.sessionId| <= MAX_SESSION_ID && |s.masterKey| <= MAX_MASTER_KEY
    && s.time < U64 && s.timeout < U32 && (forall i :: 0 <= i < |s.certs| ==> s.certs[i] != [])
    && |s.sidCtx| <= MAX_SID_CTX && -LONG_MAX - 1 <= s.verifyResult <= LONG_MAX
    && (s.pskIdentity.Some? ==> 0 !in s.pskIdentity.value) && s.lifetimeHint < U32
    && (s.peerSha256.Some? ==> |s.peerSha256.value| == SHA256_LEN) && |s.handshakeHash| <= MAX_HASH
    && s.groupId < U16 && (s.ticketAgeAdd.Some? ==> s.ticketAgeAdd.value < U32)
    && s.peerSignatureAlgorithm < U16 && s.maxEarlyData < U32 && s.authTimeout < U32
  }

  /** What a parsed session can say: no ticket number for a ticket, no certificates beside their hash, nothing empty. */
  function Norm(s: Session, forTicket: bool): Session {
    s.(sessionId := if forTicket then [] else s.sessionId,
       certs := if s.peerSha256.Some? then [] else s.certs,
       ticket := if forTicket || s.ticket == Some([]) then None else s.ticket,
       earlyAlpn := if s.earlyAlpn == Some([]) then None else s.earlyAlpn)
  }

  // ---------------------------------------------------------------- printing

  /** An optional element in front of the rest. */
  function Emit(n: nat, body: Option<Body>, rest: seq<Tok>): seq<Tok> {
    match body case None => rest case Some(b) => [Tok(Context(n), b)] + rest
  }

  function Big16(v: nat): seq<u8> {
    [v / 256 % 256, v % 256]
  }

  function Big32(v: nat): seq<u8> {
    [v / 0x100_0000 % 256, v / 0x1_0000 % 256, v / 256 % 256, v % 256]
  }

  function If<T>(b: bool, v: T): Option<T> {
    if b then Some(v) else None
  }

  function OctetsOf(b: Option<seq<u8>>): Option<Body> {
    match b case None => None case Some(v) => Some(Octets(v))
  }

  /** An octet string that is printed only if there is something in it. */
  function OctetsIfAny(b: seq<u8>): Option<Body> {
    if b != [] then Some(Octets(b)) else None
  }

  /** A boolean that is printed only if it is not what its absence means. */
  function TruthUnless(v: bool, default: bool): Option<Body> {
    if v != default then Some(Truth(v)) else None
  }

  /** The leaf certificate. */
  function LeafOf(s: Session): Option<seq<u8>> {
    if s.certs != [] && s.peerSha256.None? then Some(s.certs[0]) else None
  }

  /** The certificates behind the leaf. */
  function ChainOf(s: Session): Option<seq<seq<u8>>> {
    if |s.certs| >= 2 && s.peerSha256.None? then Some(s.certs[1..]) else None
  }

  function RawOf(b: Option<seq<u8>>): Option<Body> {
    match b case None => None case Some(v) => Some(Raw(v))
  }

  function ChainBody(cs: Option<seq<seq<u8>>>): Option<Body> {
    match cs case None => None case Some(v) => Some(Chain(v))
  }

  function PrintHead(s: Session, forTicket: bool, rest: seq<Tok>): seq<Tok> {
    [Tok(Integer, Number(1)), Tok(Integer, Number(s.sslVersion)), Tok(OctetString, Octets(Big16(s.cipher))),
     Tok(OctetString, Octets(if forTicket then [] else s.sessionId)), Tok(OctetString, Octets(s.masterKey)),
     Tok(Context(1), Number(s.time)), Tok(Context(2), Number(s.timeout))] + rest
  }

  function PrintPeer(s: Session, forTicket: bool, rest: seq<Tok>): seq<Tok> {
    Emit(3, RawOf(LeafOf(s)),
    Emit(4, OctetsOf(Some(s.sidCtx)),
    Emit(5, If(s.verifyResult != 0, Number(s.verifyResult % U64)),
    Emit(8, OctetsOf(s.pskIdentity),
    Emit(9, If(s.lifetimeHint > 0, Number(s.lifetimeHint)),
    Emit(10, OctetsOf(if forTicket then None else s.ticket), rest))))))
  }

  function PrintAuth(s: Session, rest: seq<Tok>): seq<Tok> {
    Emit(13, OctetsOf(s.peerSha256),
    Emit(14, OctetsIfAny(s.handshakeHash),
    Emit(15, OctetsOf(s.sctList),
    Emit(16, OctetsOf(s.ocspResponse),
    Emit(17, TruthUnless(s.extendedMasterSecret, false),
    Emit(18, If(s.groupId > 0, Number(s.groupId)),
    Emit(19, ChainBody(ChainOf(s)), rest)))))))
  }

  function AgeBytes(age: Option<nat>): Option<seq<u8>> {
    match age case None => None case Some(v) => Some(Big32(v))
  }

  function PrintTicket(s: Session, rest: seq<Tok>): seq<Tok> {
    Emit(21, OctetsOf(AgeBytes(s.ticketAgeAdd)),
    Emit(22, TruthUnless(s.isServer, true),
    Emit(23, If(s.peerSignatureAlgorithm != 0, Number(s.peerSignatureAlgorithm)),
    Emit(24, If(s.maxEarlyData != 0, Number(s.maxEarlyData)),
    Emit(25, If(s.timeout != s.authTimeout, Number(s.authTimeout)),
    Emit(26, OctetsOf(s.earlyAlpn), rest))))))
  }

  function Print(s: Session, forTicket: bool): seq<Tok> {
    PrintHead(s, forTicket, PrintPeer(s, forTicket, PrintAuth(s, PrintTicket(s, []))))
  }

  // ---------------------------------------------------------------- parsing

  datatype Got<+T> = Bad | Good(value: T, rest: seq<Tok>) {
    predicate IsFailure() { Bad? }
    function PropagateFailure<U>(): Got<U> requires Bad? { Bad }
    function Extract(): (T, seq<Tok>) requires Good? { (value, rest) }
  }

  /** The next element, which must have the tag. */
  function Get(toks: seq<Tok>, tag: Tag): Got<Body> {
    if toks != [] && toks[0].tag == tag then Good(toks[0].body, toks[1..]) else Bad
  }

  function GetNumber(toks: seq<Tok>, tag: Tag): Got<nat> {
    match Get(toks, tag) case Good(Number(n), rest) => if n < U64 then Good(n, rest) else Bad case _ => Bad
  }

  function GetOctets(toks: seq<Tok>, tag: Tag, max: nat): Got<seq<u8>> {
    match Get(toks, tag) case Good(Octets(b), rest) => if |b| <= max then Good(b, rest) else Bad case _ => Bad
  }

  function Opt(toks: seq<Tok>, n: nat): Got<Option<Body>> {
    if toks != [] && toks[0].tag == Context(n) then Good(Some(toks[0].body), toks[1..]) else Good(None, toks)
  }

  function OptOctets(toks: seq<Tok>, n: nat): Got<Option<seq<u8>>> {
    match Opt(toks, n)
    case Good(None, rest) => Good(None, rest)
    case Good(Some(Octets(b)), rest) => Good(Some(b), rest)
    case _ => Bad
  }

  function OptNumber(toks: seq<Tok>, n: nat, max: nat, default: nat): Got<nat> {
    match Opt(toks, n)
    case Good(None, rest) => Good(default, rest)
    case Good(Some(Number(v)), rest) => if v <= max then Good(v, rest) else Bad
    case _ => Bad
  }

  function OptBool(toks: seq<Tok>, n: nat, default: bool): Got<bool> {
    match Opt(toks, n)
    case Good(None, rest) => Good(default, rest)
    case Good(Some(Truth(t)), rest) => Good(t, rest)
    case _ => Bad
  }

  function OptRaw(toks: seq<Tok>, n: nat): Got<Option<seq<u8>>> {
    match Opt(toks, n)
    case Good(None, rest) => Good(None, rest)
    case Good(Some(Raw(r)), rest) => if r == [] then Bad else Good(Some(r), rest)
    case _ => Bad
  }

  function OptChain(toks: seq<Tok>, n: nat): Got<Option<seq<seq<u8>>>> {
    match Opt(toks, n)
    case Good(None, rest) => Good(None, rest)
    case Good(Some(Chain(cs)), rest) => if cs == [] || [] in cs then Bad else Good(Some(cs), rest)
    case _ => Bad
  }

  /** What the parser asks of its surroundings: known protocol versions, known ciphers, certificates that parse. */
  datatype Known = Known(version: nat -> bool, cipher: nat -> bool, certs: seq<seq<u8>> -> bool)

  datatype Head = Head(sslVersion: nat, cipher: nat, sessionId: seq<u8>, masterKey: seq<u8>, time: nat, timeout: nat)
  datatype Peer = Peer(leaf: Option<seq<u8>>, sidCtx: seq<u8>, verifyResult: nat, pskIdentity: Option<seq<u8>>,
                       lifetimeHint: nat, ticket: Option<seq<u8>>)
  datatype Auth = Auth(peerSha256: Option<seq<u8>>, handshakeHash: seq<u8>, sctList: Option<seq<u8>>, ocspResponse: Option<seq<u8>>,
                       extendedMasterSecret: bool, groupId: nat, chain: Option<seq<seq<u8>>>)
  datatype Ticket = Ticket(ageAdd: Option<nat>, isServer: bool, signatureAlgorithm: nat, maxEarlyData: nat,
                           authTimeout: nat, earlyAlpn: Option<seq<u8>>)

  function NonEmpty(b: Option<seq<u8>>): Option<seq<u8>> {
    if b == Some([]) then None else b
  }

  function OrEmpty(b: Option<seq<u8>>): seq<u8> {
    match b case None => [] case Some(v) => v
  }

  function ParseHead(k: Known, toks: seq<Tok>): Got<Head> {
    var version :- GetNumber(toks, Integer);
    var ssl :- GetNumber(version.1, Integer);
    var cipher :- GetOctets(ssl.1, OctetString, 2);
    var id :- GetOctets(cipher.1, OctetString, MAX_SESSION_ID);
    var key :- GetOctets(id.1, OctetString, MAX_MASTER_KEY);
    var time :- GetNumber(key.1, Context(1));
    var timeout :- GetNumber(time.1, Context(2));
    if version.0 != 1 || ssl.0 >= U16 || !k.version(ssl.0) || |cipher.0| != 2 || timeout.0 >= U32 then Bad
    else
      var value := cipher.0[0] as int * 256 + cipher.0[1] as int;
      if !k.cipher(value) then Bad
      else Good(Head(ssl.0, value, id.0, key.0, time.0, timeout.0), timeout.1)
  }

  function ParsePeer(toks: seq<Tok>): Got<Peer> {
    var leaf :- OptRaw(toks, 3);
    var sid :- OptOctets(leaf.1, 4);
    var verify :- OptNumber(sid.1, 5, LONG_MAX, 0);
    var host :- Opt(verify.1, 6);
    var psk :- OptOctets(host.1, 8);
    var hint :- OptNumber(psk.1, 9, U32 - 1, 0);
    var ticket :- OptOctets(hint.1, 10);
    if |OrEmpty(sid.0)| > MAX_SID_CTX || (psk.0.Some? && 0 in psk.0.value) then Bad
    else Good(Peer(leaf.0, OrEmpty(sid.0), verify.0, psk.0, hint.0, NonEmpty(ticket.0)), ticket.1)
  }

  function ParseAuth(hasLeaf: bool, toks: seq<Tok>): Got<Auth> {
    var sha :- OptOctets(toks, 13);
    var hash :- OptOctets(sha.1, 14);
    var sct :- OptOctets(hash.1, 15);
    var ocsp :- OptOctets(sct.1, 16);
    var ems :- OptBool(ocsp.1, 17, false);
    var group :- OptNumber(ems.1, 18, U16 - 1, 0);
    var chain :- OptChain(group.1, 19);
    if (sha.0.Some? && |sha.0.value| != SHA256_LEN) || |OrEmpty(hash.0)| > MAX_HASH || (chain.0.Some? && !hasLeaf) then Bad
    else Good(Auth(sha.0, OrEmpty(hash.0), sct.0, ocsp.0, ems.0, group.0, chain.0), chain.1)
  }

  function ParseTicket(timeout: nat, toks: seq<Tok>): Got<Ticket> {
    var age :- OptOctets(toks, 21);
    var server :- OptBool(age.1, 22, true);
    var alg :- OptNumber(server.1, 23, U16 - 1, 0);
    var early :- OptNumber(alg.1, 24, U32 - 1, 0);
    var auth :- OptNumber(early.1, 25, U32 - 1, timeout);
    var alpn :- OptOctets(auth.1, 26);
    if age.0.Some? && |age.0.value| != 4 then Bad
    else Good(Ticket(match age.0 case None => None case Some(b) => Some(FromBig32(b)),
                     server.0, alg.0, early.0, auth.0, NonEmpty(alpn.0)), alpn.1)
  }

  function FromBig32(b: seq<u8>): nat {
    if |b| != 4 then 0
    else b[0] as int * 0x100_0000 + b[1] as int * 0x1_0000 + b[2] as int * 256 + b[3] as int
  }

  function Certs(leaf: Option<seq<u8>>, chain: Option<seq<seq<u8>>>): seq<seq<u8>> {
    (if leaf.Some? then [leaf.value] else []) + (if chain.Some? then chain.value else [])
  }

  function Parse(k: Known, toks: seq<Tok>): Option<Session> {
    match ParseHead(k, toks)
    case Bad => None
    case Good(h, rest) =>
      match ParsePeer(rest)
      case Bad => None
      case Good(p, rest1) =>
        match ParseAuth(p.leaf.Some?, rest1)
        case Bad => None
        case Good(a, rest2) =>
          var certs := Certs(p.leaf, a.chain);
          if !k.certs(certs) then None
          else match ParseTicket(h.timeout, rest2)
            case Bad => None
            case Good(t, rest3) => if rest3 != [] then None else Some(Assembled(h, p, a, t))
  }

  function Assembled(h: Head, p: Peer, a: Auth, t: Ticket): Session {
    Session(h.sslVersion, h.cipher, h.sessionId, h.masterKey, h.time, h.timeout, Certs(p.leaf, a.chain), p.sidCtx,
            p.verifyResult, p.pskIdentity, p.lifetimeHint, p.ticket, a.peerSha256, a.handshakeHash, a.sctList, a.ocspResponse,
            a.extendedMasterSecret, a.groupId, t.ageAdd, t.isServer, t.signatureAlgorithm, t.maxEarlyData, t.authTimeout, t.earlyAlpn)
  }

  // ---------------------------------------------------------------- the round trip

  /** The rest has only later context tags. */
  predicate After(toks: seq<Tok>, n: nat) {
    toks == [] || (toks[0].tag.Context? && toks[0].tag.n > n)
  }

  lemma OctetsBack(n: nat, b: Option<seq<u8>>, rest: seq<Tok>)
    requires After(rest, n)
    ensures OptOctets(Emit(n, OctetsOf(b), rest), n) == Good(b, rest)
    ensures forall m :: 0 <= m < n ==> After(Emit(n, OctetsOf(b), rest), m)
  {
  }

  lemma BytesBack(n: nat, b: seq<u8>, rest: seq<Tok>)
    requires After(rest, n)
    ensures OptOctets(Emit(n, OctetsIfAny(b), rest), n) == Good(if b != [] then Some(b) else None, rest)
    ensures forall m :: 0 <= m < n ==> After(Emit(n, OctetsIfAny(b), rest), m)
  {
  }

  /** A number that is left out when it has the reader's default. */
  lemma NumberBack(n: nat, printed: bool, v: nat, max: nat, default: nat, rest: seq<Tok>)
    requires After(rest, n) && (!printed ==> v == default)
    ensures OptNumber(Emit(n, If(printed, Number(v)), rest), n, max, default) == if printed && v > max then Bad else Good(v, rest)
    ensures forall m :: 0 <= m < n ==> After(Emit(n, If(printed, Number(v)), rest), m)
  {
  }

  lemma BoolBack(n: nat, v: bool, default: bool, rest: seq<Tok>)
    requires After(rest, n)
    ensures OptBool(Emit(n, TruthUnless(v, default), rest), n, default) == Good(v, rest)
    ensures forall m :: 0 <= m < n ==> After(Emit(n, TruthUnless(v, default), rest), m)
  {
  }

  lemma LeafBack(n: nat, leaf: Option<seq<u8>>, rest: seq<Tok>)
    requires After(rest, n) && leaf != Some([])
    ensures OptRaw(Emit(n, RawOf(leaf), rest), n) == Good(leaf, rest)
    ensures forall m :: 0 <= m < n ==> After(Emit(n, RawOf(leaf), rest), m)
  {
  }

  lemma ChainBack(n: nat, chain: Option<seq<seq<u8>>>, rest: seq<Tok>)
    requires After(rest, n) && (chain.Some? ==> chain.value != [] && [] !in chain.value)
    ensures OptChain(Emit(n, ChainBody(chain), rest), n) == Good(chain, rest)
    ensures forall m :: 0 <= m < n ==> After(Emit(n, ChainBody(chain), rest), m)
  {
  }

  lemma HeadRoundTrip(k: Known, s: Session, forTicket: bool, rest: seq<Tok>)
    requires Typed(s)
    ensures ParseHead(k, PrintHead(s, forTicket, rest))
         == if k.version(s.sslVersion) && k.cipher(s.cipher)
            then Good(Head(s.sslVersion, s.cipher, if forTicket then [] else s.sessionId, s.masterKey, s.time, s.timeout), rest)
            else Bad
  {
    var t := PrintHead(s, forTicket, rest);
    assert t[1..][1..] == t[2..] && t[2..][1..] == t[3..] && t[3..][1..] == t[4..] && t[4..][1..] == t[5..];
    assert t[5..][1..] == t[6..] && t[6..][1..] == rest;
    assert Big16(s.cipher)[0] as int * 256 + Big16(s.cipher)[1] as int == s.cipher;
  }

  lemma PeerRoundTrip(s: Session, forTicket: bool, rest: seq<Tok>)
    requires Typed(s) && After(rest, 10)
    ensures ParsePeer(PrintPeer(s, forTicket, rest))
         == if s.verifyResult < 0 then Bad
            else Good(Peer(LeafOf(s), s.sidCtx, s.verifyResult, s.pskIdentity, s.lifetimeHint,
                           if forTicket then None else NonEmpty(s.ticket)), rest)
    ensures After(PrintPeer(s, forTicket, rest), 2)
  {
    hide Opt, Emit, OptOctets, OptNumber, OptRaw, After;
    var ticket := if forTicket then None else s.ticket;
    var t10 := Emit(10, OctetsOf(ticket), rest);
    var t9 := Emit(9, If(s.lifetimeHint > 0, Number(s.lifetimeHint)), t10);
    var t8 := Emit(8, OctetsOf(s.pskIdentity), t9);
    var t5 := Emit(5, If(s.verifyResult != 0, Number(s.verifyResult % U64)), t8);
    var t4 := Emit(4, OctetsOf(Some(s.sidCtx)), t5);
    NegativeWraps(s.verifyResult);
    OctetsBack(10, ticket, rest);
    NumberBack(9, s.lifetimeHint > 0, s.lifetimeHint, U32 - 1, 0, t10);
    OctetsBack(8, s.pskIdentity, t9);
    NothingThere(t8, 6, 7);
    NumberBack(5, s.verifyResult != 0, s.verifyResult % U64, LONG_MAX, 0, t8);
    OctetsBack(4, Some(s.sidCtx), t5);
    LeafBack(3, LeafOf(s), t4);
  }

  lemma NegativeWraps(v: int)
    requires -LONG_MAX - 1 <= v <= LONG_MAX
    ensures v >= 0 ==> v % U64 == v
    ensures v < 0 ==> v % U64 > LONG_MAX
  {
    if v < 0 {
      assert v % U64 == v + U64;
    }
  }

  lemma NothingThere(toks: seq<Tok>, n: nat, m: nat)
    requires After(toks, m) && n <= m
    ensures Opt(toks, n) == Good(None, toks)
  {
  }

  lemma AuthRoundTrip(s: Session, rest: seq<Tok>)
    requires Typed(s) && After(rest, 19)
    ensures ParseAuth(LeafOf(s).Some?, PrintAuth(s, rest))
         == Good(Auth(s.peerSha256, s.handshakeHash, s.sctList, s.ocspResponse, s.extendedMasterSecret, s.groupId,
                      ChainOf(s)), rest)
    ensures After(PrintAuth(s, rest), 10)
  {
    hide Opt, Emit, OptOctets, OptNumber, OptBool, OptChain, After;
    var t19 := Emit(19, ChainBody(ChainOf(s)), rest);
    var t18 := Emit(18, If(s.groupId > 0, Number(s.groupId)), t19);
    var t17 := Emit(17, TruthUnless(s.extendedMasterSecret, false), t18);
    var t16 := Emit(16, OctetsOf(s.ocspResponse), t17);
    var t15 := Emit(15, OctetsOf(s.sctList), t16);
    var t14 := Emit(14, OctetsIfAny(s.handshakeHash), t15);
    ChainBack(19, ChainOf(s), rest);
    NumberBack(18, s.groupId > 0, s.groupId, U16 - 1, 0, t19);
    BoolBack(17, s.extendedMasterSecret, false, t18);
    OctetsBack(16, s.ocspResponse, t17);
    OctetsBack(15, s.sctList, t16);
    BytesBack(14, s.handshakeHash, t15);
    OctetsBack(13, s.peerSha256, t14);
  }

  lemma TicketRoundTrip(s: Session)
    requires Typed(s)
    ensures ParseTicket(s.timeout, PrintTicket(s, []))
         == Good(Ticket(s.ticketAgeAdd, s.isServer, s.peerSignatureAlgorithm, s.maxEarlyData, s.authTimeout, NonEmpty(s.earlyAlpn)), [])
    ensures After(PrintTicket(s, []), 19)
  {
    hide Opt, Emit, OptOctets, OptNumber, OptBool, After, Big32, FromBig32;
    var t26 := Emit(26, OctetsOf(s.earlyAlpn), []);
    var t25 := Emit(25, If(s.timeout != s.authTimeout, Number(s.authTimeout)), t26);
    var t24 := Emit(24, If(s.maxEarlyData != 0, Number(s.maxEarlyData)), t25);
    var t23 := Emit(23, If(s.peerSignatureAlgorithm != 0, Number(s.peerSignatureAlgorithm)), t24);
    var t22 := Emit(22, TruthUnless(s.isServer, true), t23);
    EndOfTokens(26);
    OctetsBack(26, s.earlyAlpn, []);
    NumberBack(25, s.timeout != s.authTimeout, s.authTimeout, U32 - 1, s.timeout, t26);
    NumberBack(24, s.maxEarlyData != 0, s.maxEarlyData, U32 - 1, 0, t25);
    NumberBack(23, s.peerSignatureAlgorithm != 0, s.peerSignatureAlgorithm, U16 - 1, 0, t24);
    BoolBack(22, s.isServer, true, t23);
    OctetsBack(21, AgeBytes(s.ticketAgeAdd), t22);
    if s.ticketAgeAdd.Some? {
      Big32Back(s.ticketAgeAdd.value);
    }
  }

  lemma EndOfTokens(n: nat)
    ensures After([], n)
  {
  }

  lemma Big32Back(v: nat)
    requires v < U32
    ensures |Big32(v)| == 4 && FromBig32(Big32(v)) == v
  {
    var hi, lo := v / 0x1_0000, v % 0x1_0000;
    TwoDigits(hi);
    TwoDigits(lo);
    Shifts(v);
  }

  lemma TwoDigits(v: nat)
    requires v < U16
    ensures v == v / 256 % 256 * 256 + v % 256 && v / 256 < 256
  {
  }

  lemma Shifts(v: nat)
    requires v < U32
    ensures v / 0x100_0000 == v / 0x1_0000 / 256 && v / 0x1_0000 < U16
    ensures v / 256 % 256 == v % 0x1_0000 / 256 && v % 256 == v % 0x1_0000 % 256
  {
  }

  /**
   Parsing what was printed. It succeeds exactly when version and cipher are known, the stored verification
   result is not negative, and the printed certificates parse; it then gives back the session, but for what
   printing leaves out.
   */
  lemma RoundTrip(k: Known, s: Session, forTicket: bool)
    requires Typed(s)
    ensures Parse(k, Print(s, forTicket))
         == if k.version(s.sslVersion) && k.cipher(s.cipher) && s.verifyResult >= 0 && k.certs(Norm(s, forTicket).certs)
            then Some(Norm(s, forTicket)) else None
  {
    hide PrintHead, PrintPeer, PrintAuth, PrintTicket, ParseHead, ParsePeer, ParseAuth, ParseTicket;
    TicketRoundTrip(s);
    AuthRoundTrip(s, PrintTicket(s, []));
    PeerRoundTrip(s, forTicket, PrintAuth(s, PrintTicket(s, [])));
    HeadRoundTrip(k, s, forTicket, PrintPeer(s, forTicket, PrintAuth(s, PrintTicket(s, []))));
    CertsBack(s);
  }

  lemma CertsBack(s: Session)
    ensures Certs(LeafOf(s), ChainOf(s))
         == if s.peerSha256.Some? then [] else s.certs
  {
  }

  /** A session as short as it can be, but for its verify result. */
  function Shortest(verifyResult: int): Session {
    Session(0x0303, 0x002F, [], [], 0, 0, [], [], verifyResult, None, 0, None, None, [], None, None, false, 0, None, true, 0, 0, 0,
            None)
  }

  /** A negative verify result is printed and does not parse, whatever is known; with zero in its place the same session does. */
  lemma NegativeFails(k: Known)
    ensures Typed(Shortest(-1)) && Parse(k, Print(Shortest(-1), false)) == None
    ensures k.version(0x0303) && k.cipher(0x002F) && k.certs([]) ==> Parse(k, Print(Shortest(0), false)) == Some(Shortest(0))
  {
    hide Parse, Print;
    RoundTrip(k, Shortest(-1), false);
    RoundTrip(k, Shortest(0), false);
  }
}
