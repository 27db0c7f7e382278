/**
 The form of a printed session, element by element: what each context tag may say. Parsing accepts exactly this
 form, and printing lists the elements in the order of their tags, each only if its absence would not say the same.
 */
module SslSessionForm {
  import opened Prelude
  import opened SslSession

  // ---------------------------------------------------------------- what the elements say

  predicate SaysNumber(v: int, max: nat, default: nat, b: Option<Body>) {
    match b
    case None => v == default
    case Some(Number(n)) => v == n <= max
    case _ => false
  }

  predicate SaysTruth(v: bool, default: bool, b: Option<Body>) {
    match b
    case None => v == default
    case Some(Truth(t)) => v == t
    case _ => false
  }

  /** Absence says the same as an empty string. */
  predicate SaysString(v: seq<u8>, max: nat, b: Option<Body>) {
    match b
    case None => v == []
    case Some(Octets(o)) => v == o && |o| <= max
    case _ => false
  }

  /** An empty string says the same as absence. */
  predicate SaysNonEmpty(v: Option<seq<u8>>, b: Option<Body>) {
    match b
    case None => v == None
    case Some(Octets(o)) => v == if o == [] then None else Some(o)
    case _ => false
  }

  predicate SaysOctets(v: Option<seq<u8>>, b: Option<Body>) {
    match b
    case None => v == None
    case Some(Octets(o)) => v == Some(o)
    case _ => false
  }

  predicate SaysLeaf(certs: seq<seq<u8>>, b: Option<Body>) {
    match b
    case None => certs == []
    case Some(Raw(r)) => r != [] && certs != [] && certs[0] == r
    case _ => false
  }

  predicate SaysChain(certs: seq<seq<u8>>, b: Option<Body>) {
    match b
    case None => |certs| <= 1
    case Some(Chain(cs)) => cs != [] && [] !in cs && |certs| >= 2 && certs[1..] == cs
    case _ => false
  }

  predicate SaysAge(age: Option<nat>, b: Option<Body>) {
    match b
    case None => age == None
    case Some(Octets(o)) =>
      |o| == 4 && age == Some(((o[0] as nat * 256 + o[1] as nat) * 256 + o[2] as nat) * 256 + o[3] as nat)
    case _ => false
  }

  /** What the element with context tag `n`, or its absence, may say of a session. The host name says nothing. */
  predicate Says(s: Session, n: nat, b: Option<Body>) {
    match n
    case 1 => b == Some(Number(s.time)) && s.time < U64
    case 2 => b == Some(Number(s.timeout)) && s.timeout < U32
    case 3 => SaysLeaf(s.certs, b)
    case 4 => SaysString(s.sidCtx, 32, b)
    case 5 => SaysNumber(s.verifyResult, LONG_MAX, 0, b)
    case 6 => true
    case 8 => SaysOctets(s.pskIdentity, b) && (s.pskIdentity.Some? ==> 0 !in s.pskIdentity.value)
    case 9 => SaysNumber(s.lifetimeHint, 0xFFFF_FFFF, 0, b)
    case 10 => SaysNonEmpty(s.ticket, b)
    case 13 => SaysOctets(s.peerSha256, b) && (s.peerSha256.Some? ==> |s.peerSha256.value| == 32)
    case 14 => SaysString(s.handshakeHash, 64, b)
    case 15 => SaysOctets(s.sctList, b)
    case 16 => SaysOctets(s.ocspResponse, b)
    case 17 => SaysTruth(s.extendedMasterSecret, false, b)
    case 18 => SaysNumber(s.groupId, 0xFFFF, 0, b)
    case 19 => SaysChain(s.certs, b)
    case 21 => SaysAge(s.ticketAgeAdd, b)
    case 22 => SaysTruth(s.isServer, true, b)
    case 23 => SaysNumber(s.peerSignatureAlgorithm, 0xFFFF, 0, b)
    case 24 => SaysNumber(s.maxEarlyData, 0xFFFF_FFFF, 0, b)
    case 25 => SaysNumber(s.authTimeout, 0xFFFF_FFFF, s.timeout, b)
    case 26 => SaysNonEmpty(s.earlyAlpn, b)
    case _ => b == None
  }

  /** The element with context tag `n`, if it is next, and what comes behind it. */
  function Elem(toks: seq<Tok>, n: nat): Option<Body> {
    if toks != [] && toks[0].tag == Context(n) then Some(toks[0].body) else None
  }

  function Past(toks: seq<Tok>, n: nat): seq<Tok> {
    if Elem(toks, n).Some? then toks[1..] else toks
  }

  /** The elements with tags from `n` on, in order and none twice, say these things of the session. */
  predicate Lists(s: Session, toks: seq<Tok>, n: nat)
    decreases 27 - n
  {
    if n > 26 then toks == [] else Says(s, n, Elem(toks, n)) && Lists(s, Past(toks, n), n + 1)
  }

  /** The five elements in front, and then those with context tags. */
  predicate IsSession(k: Known, toks: seq<Tok>, s: Session) {
    && |toks| >= 5
    && toks[0] == Tok(Integer, Number(1))
    && toks[1] == Tok(Integer, Number(s.sslVersion)) && s.sslVersion < U16 && k.version(s.sslVersion)
    && s.cipher < U16 && toks[2] == Tok(OctetString, Octets([s.cipher / 256, s.cipher % 256])) && k.cipher(s.cipher)
    && toks[3] == Tok(OctetString, Octets(s.sessionId)) && |s.sessionId| <= 32
    && toks[4] == Tok(OctetString, Octets(s.masterKey)) && |s.masterKey| <= 48
    && k.certs(s.certs)
    && Lists(s, toks[5..], 1)
  }

  // ---------------------------------------------------------------- parsing accepts exactly that

  /** Tags only grow: an element that was passed over cannot be read any more. */
  lemma {:induction false} TooLate(s: Session, toks: seq<Tok>, n: nat)
    requires n <= 27 && toks != [] && (toks[0].tag.Context? ==> toks[0].tag.n < n)
    ensures !Lists(s, toks, n)
    decreases 27 - n
  {
    if n <= 26 {
      TooLate(s, toks, n + 1);
    }
  }

  // Each way of reading an element gives the value that the element says, and no other.

  lemma OptIs(toks: seq<Tok>, n: nat)
    ensures Opt(toks, n) == Good(Elem(toks, n), Past(toks, n))
  {
  }

  lemma NumberIff(toks: seq<Tok>, n: nat, max: nat, default: nat, v: int)
    ensures var r := OptNumber(toks, n, max, default);
            && (SaysNumber(v, max, default, Elem(toks, n)) <==> r.Good? && r.value == v)
            && (r.Good? ==> r.rest == Past(toks, n))
  {
  }

  lemma TruthIff(toks: seq<Tok>, n: nat, default: bool, v: bool)
    ensures var r := OptBool(toks, n, default);
            && (SaysTruth(v, default, Elem(toks, n)) <==> r.Good? && r.value == v)
            && (r.Good? ==> r.rest == Past(toks, n))
  {
  }

  lemma OctetsIff(toks: seq<Tok>, n: nat, v: Option<seq<u8>>)
    ensures var r := OptOctets(toks, n);
            && (SaysOctets(v, Elem(toks, n)) <==> r.Good? && r.value == v)
            && (SaysNonEmpty(v, Elem(toks, n)) <==> r.Good? && NonEmpty(r.value) == v)
            && (r.Good? ==> r.rest == Past(toks, n))
  {
  }

  lemma StringIff(toks: seq<Tok>, n: nat, max: nat, v: seq<u8>)
    ensures var r := OptOctets(toks, n);
            && (SaysString(v, max, Elem(toks, n)) <==> r.Good? && OrEmpty(r.value) == v && |v| <= max)
            && (r.Good? ==> r.rest == Past(toks, n))
  {
  }

  lemma AgeIff(toks: seq<Tok>, n: nat, age: Option<nat>)
    ensures var r := OptOctets(toks, n);
            && (SaysAge(age, Elem(toks, n)) <==>
                  r.Good? && (match r.value case None => age == None case Some(b) => |b| == 4 && age == Some(FromBig32(b))))
            && (r.Good? ==> r.rest == Past(toks, n))
  {
  }

  predicate LeafIs(certs: seq<seq<u8>>, leaf: Option<seq<u8>>) {
    match leaf case None => certs == [] case Some(c) => certs != [] && certs[0] == c
  }

  predicate ChainIs(certs: seq<seq<u8>>, chain: Option<seq<seq<u8>>>) {
    match chain case None => |certs| <= 1 case Some(cs) => |certs| >= 2 && certs[1..] == cs
  }

  lemma LeafIff(toks: seq<Tok>, n: nat, certs: seq<seq<u8>>)
    ensures var r := OptRaw(toks, n);
            && (SaysLeaf(certs, Elem(toks, n)) <==> r.Good? && LeafIs(certs, r.value))
            && (r.Good? ==> r.rest == Past(toks, n))
  {
  }

  lemma ChainIff(toks: seq<Tok>, n: nat, certs: seq<seq<u8>>)
    ensures var r := OptChain(toks, n);
            && (SaysChain(certs, Elem(toks, n)) <==> r.Good? && ChainIs(certs, r.value))
            && (r.Good? ==> r.rest == Past(toks, n))
  {
  }

  // ---------------------------------------------------------------- part after part

  function PastPeer(toks: seq<Tok>): seq<Tok> {
    Past(Past(Past(Past(Past(Past(Past(toks, 3), 4), 5), 6), 8), 9), 10)
  }

  predicate PeerIs(s: Session, p: Peer) {
    && LeafIs(s.certs, p.leaf)
    && s.sidCtx == p.sidCtx && s.verifyResult == p.verifyResult && s.pskIdentity == p.pskIdentity
    && s.lifetimeHint == p.lifetimeHint && s.ticket == p.ticket
  }

  predicate PeerSays(s: Session, t3: seq<Tok>) {
    var t4 := Past(t3, 3);
    var t5 := Past(t4, 4);
    var t8 := Past(Past(t5, 5), 6);
    var t9 := Past(t8, 8);
    && Says(s, 3, Elem(t3, 3)) && Says(s, 4, Elem(t4, 4)) && Says(s, 5, Elem(t5, 5)) && Says(s, 8, Elem(t8, 8))
    && Says(s, 9, Elem(t9, 9)) && Says(s, 10, Elem(Past(t9, 9), 10))
  }

  lemma PeerIff(s: Session, t3: seq<Tok>)
    ensures PeerSays(s, t3) <==> ParsePeer(t3).Good? && PeerIs(s, ParsePeer(t3).value)
    ensures ParsePeer(t3).Good? ==> ParsePeer(t3).rest == PastPeer(t3)
  {
    hide Opt, OptOctets, OptNumber, OptRaw, SaysLeaf, SaysString, SaysNumber, SaysOctets, SaysNonEmpty, OrEmpty, NonEmpty,
      LeafIs, Elem, Past;
    var t4 := Past(t3, 3);
    var t5 := Past(t4, 4);
    var t6 := Past(t5, 5);
    var t8 := Past(t6, 6);
    var t9 := Past(t8, 8);
    LeafIff(t3, 3, s.certs);
    StringIff(t4, 4, 32, s.sidCtx);
    NumberIff(t5, 5, LONG_MAX, 0, s.verifyResult);
    OptIs(t6, 6);
    OctetsIff(t8, 8, s.pskIdentity);
    NumberIff(t9, 9, 0xFFFF_FFFF, 0, s.lifetimeHint);
    OctetsIff(Past(t9, 9), 10, s.ticket);
  }

  function PastAuth(toks: seq<Tok>): seq<Tok> {
    Past(Past(Past(Past(Past(Past(Past(toks, 13), 14), 15), 16), 17), 18), 19)
  }

  predicate AuthIs(s: Session, a: Auth) {
    && s.peerSha256 == a.peerSha256 && s.handshakeHash == a.handshakeHash && s.sctList == a.sctList
    && s.ocspResponse == a.ocspResponse && s.extendedMasterSecret == a.extendedMasterSecret && s.groupId == a.groupId
    && ChainIs(s.certs, a.chain)
  }

  predicate AuthSays(s: Session, t13: seq<Tok>) {
    var t14 := Past(t13, 13);
    var t15 := Past(t14, 14);
    var t16 := Past(t15, 15);
    var t17 := Past(t16, 16);
    var t18 := Past(t17, 17);
    && Says(s, 13, Elem(t13, 13)) && Says(s, 14, Elem(t14, 14)) && Says(s, 15, Elem(t15, 15)) && Says(s, 16, Elem(t16, 16))
    && Says(s, 17, Elem(t17, 17)) && Says(s, 18, Elem(t18, 18)) && Says(s, 19, Elem(Past(t18, 18), 19))
  }

  lemma AuthIff(s: Session, t13: seq<Tok>)
    ensures AuthSays(s, t13) <==> ParseAuth(s.certs != [], t13).Good? && AuthIs(s, ParseAuth(s.certs != [], t13).value)
    ensures ParseAuth(s.certs != [], t13).Good? ==> ParseAuth(s.certs != [], t13).rest == PastAuth(t13)
  {
    hide Opt, OptOctets, OptNumber, OptBool, OptChain, SaysChain, SaysString, SaysNumber, SaysTruth, SaysOctets, OrEmpty,
      Elem, Past;
    var t14 := Past(t13, 13);
    var t15 := Past(t14, 14);
    var t16 := Past(t15, 15);
    var t17 := Past(t16, 16);
    var t18 := Past(t17, 17);
    OctetsIff(t13, 13, s.peerSha256);
    StringIff(t14, 14, 64, s.handshakeHash);
    OctetsIff(t15, 15, s.sctList);
    OctetsIff(t16, 16, s.ocspResponse);
    TruthIff(t17, 17, false, s.extendedMasterSecret);
    NumberIff(t18, 18, 0xFFFF, 0, s.groupId);
    ChainIff(Past(t18, 18), 19, s.certs);
  }

  function PastTicket(toks: seq<Tok>): seq<Tok> {
    Past(Past(Past(Past(Past(Past(toks, 21), 22), 23), 24), 25), 26)
  }

  predicate TicketIs(s: Session, t: Ticket) {
    && s.ticketAgeAdd == t.ageAdd && s.isServer == t.isServer && s.peerSignatureAlgorithm == t.signatureAlgorithm
    && s.maxEarlyData == t.maxEarlyData && s.authTimeout == t.authTimeout && s.earlyAlpn == t.earlyAlpn
  }

  predicate TicketSays(s: Session, t21: seq<Tok>) {
    var t22 := Past(t21, 21);
    var t23 := Past(t22, 22);
    var t24 := Past(t23, 23);
    var t25 := Past(t24, 24);
    && Says(s, 21, Elem(t21, 21)) && Says(s, 22, Elem(t22, 22)) && Says(s, 23, Elem(t23, 23)) && Says(s, 24, Elem(t24, 24))
    && Says(s, 25, Elem(t25, 25)) && Says(s, 26, Elem(Past(t25, 25), 26))
  }

  lemma TicketIff(s: Session, t21: seq<Tok>)
    ensures TicketSays(s, t21) <==> ParseTicket(s.timeout, t21).Good? && TicketIs(s, ParseTicket(s.timeout, t21).value)
    ensures ParseTicket(s.timeout, t21).Good? ==> ParseTicket(s.timeout, t21).rest == PastTicket(t21)
  {
    hide Opt, OptOctets, OptNumber, OptBool, SaysAge, SaysNumber, SaysTruth, SaysNonEmpty, NonEmpty, FromBig32, Elem, Past;
    var t22 := Past(t21, 21);
    var t23 := Past(t22, 22);
    var t24 := Past(t23, 23);
    var t25 := Past(t24, 24);
    AgeIff(t21, 21, s.ticketAgeAdd);
    TruthIff(t22, 22, true, s.isServer);
    NumberIff(t23, 23, 0xFFFF, 0, s.peerSignatureAlgorithm);
    NumberIff(t24, 24, 0xFFFF_FFFF, 0, s.maxEarlyData);
    NumberIff(t25, 25, 0xFFFF_FFFF, s.timeout, s.authTimeout);
    OctetsIff(Past(t25, 25), 26, s.earlyAlpn);
  }

  predicate HeadIs(s: Session, h: Head) {
    && s.sslVersion == h.sslVersion && s.cipher == h.cipher && s.sessionId == h.sessionId && s.masterKey == h.masterKey
    && s.time == h.time && s.timeout == h.timeout
  }

  predicate HeadSays(k: Known, s: Session, toks: seq<Tok>) {
    && |toks| >= 5
    && toks[0] == Tok(Integer, Number(1))
    && toks[1] == Tok(Integer, Number(s.sslVersion)) && s.sslVersion < U16 && k.version(s.sslVersion)
    && s.cipher < U16 && toks[2] == Tok(OctetString, Octets([s.cipher / 256, s.cipher % 256])) && k.cipher(s.cipher)
    && toks[3] == Tok(OctetString, Octets(s.sessionId)) && |s.sessionId| <= 32
    && toks[4] == Tok(OctetString, Octets(s.masterKey)) && |s.masterKey| <= 48
    && Says(s, 1, Elem(toks[5..], 1)) && Says(s, 2, Elem(Past(toks[5..], 1), 2))
  }

  lemma HeadIff(k: Known, s: Session, toks: seq<Tok>)
    ensures HeadSays(k, s, toks) <==> ParseHead(k, toks).Good? && HeadIs(s, ParseHead(k, toks).value)
    ensures ParseHead(k, toks).Good? ==> |toks| >= 7 && ParseHead(k, toks).rest == Past(Past(toks[5..], 1), 2)
  {
    if |toks| >= 5 {
      assert toks[1..][1..] == toks[2..] && toks[2..][1..] == toks[3..] && toks[3..][1..] == toks[4..];
      assert toks[4..][1..] == toks[5..];
    }
    if |toks| >= 7 {
      assert toks[5..][1..] == toks[6..];
    }
  }

  // ---------------------------------------------------------------- the whole

  lemma ListsStep(s: Session, toks: seq<Tok>, n: nat)
    requires n <= 26
    ensures Lists(s, toks, n) <==> Says(s, n, Elem(toks, n)) && Lists(s, Past(toks, n), n + 1)
  {
  }

  /** No element has one of these tags: what has it is never read. */
  lemma NoneSuch(s: Session, toks: seq<Tok>, n: nat, m: nat)
    requires n in {7, 11, 12, 20} && n < m <= 27
    ensures Elem(toks, n).Some? ==> !Lists(s, toks, m) && !Lists(s, toks, n)
    ensures Elem(toks, n).None? ==> (Lists(s, toks, n) <==> Lists(s, toks, n + 1))
  {
    hide Says, Lists;
    NotSaid(s, n, Elem(toks, n));
    ListsStep(s, toks, n);
    if Elem(toks, n).Some? {
      TooLate(s, toks, m);
    }
  }

  lemma NotSaid(s: Session, n: nat, b: Option<Body>)
    requires n in {7, 11, 12, 20}
    ensures Says(s, n, b) <==> b == None
  {
  }

  /** At another tag it stays unread. */
  lemma Unread(toks: seq<Tok>, n: nat, m: nat)
    requires Elem(toks, n).Some? && n != m
    ensures Past(toks, m) == toks
  {
  }

  lemma PeerLists(s: Session, t3: seq<Tok>)
    ensures Lists(s, t3, 3) <==> PeerSays(s, t3) && Lists(s, PastPeer(t3), 13)
  {
    hide Says, Lists, Elem, Past;
    var t4 := Past(t3, 3);
    var t5 := Past(t4, 4);
    var t6 := Past(t5, 5);
    var t8 := Past(t6, 6);
    var t9 := Past(t8, 8);
    var t11 := PastPeer(t3);
    ListsStep(s, t3, 3);
    ListsStep(s, t4, 4);
    ListsStep(s, t5, 5);
    ListsStep(s, t6, 6);
    NoneSuch(s, t8, 7, 13);
    ListsStep(s, t8, 8);
    ListsStep(s, t9, 9);
    ListsStep(s, Past(t9, 9), 10);
    NoneSuch(s, t11, 11, 13);
    NoneSuch(s, t11, 12, 13);
    if Elem(t8, 7).Some? {
      Unread(t8, 7, 8);
      Unread(t8, 7, 9);
      Unread(t8, 7, 10);
    }
    assert Says(s, 6, Elem(t6, 6)) by {
      HostSays(s, Elem(t6, 6));
    }
  }

  lemma HostSays(s: Session, b: Option<Body>)
    ensures Says(s, 6, b)
  {
  }

  lemma AuthLists(s: Session, t13: seq<Tok>)
    ensures Lists(s, t13, 13) <==> AuthSays(s, t13) && Lists(s, PastAuth(t13), 21)
  {
    hide Says, Lists, Elem, Past;
    var t14 := Past(t13, 13);
    var t15 := Past(t14, 14);
    var t16 := Past(t15, 15);
    var t17 := Past(t16, 16);
    var t18 := Past(t17, 17);
    ListsStep(s, t13, 13);
    ListsStep(s, t14, 14);
    ListsStep(s, t15, 15);
    ListsStep(s, t16, 16);
    ListsStep(s, t17, 17);
    ListsStep(s, t18, 18);
    ListsStep(s, Past(t18, 18), 19);
    NoneSuch(s, PastAuth(t13), 20, 21);
  }

  lemma TicketLists(s: Session, t21: seq<Tok>)
    ensures Lists(s, t21, 21) <==> TicketSays(s, t21) && PastTicket(t21) == []
  {
    hide Says, Elem, Past;
    var t22 := Past(t21, 21);
    var t23 := Past(t22, 22);
    var t24 := Past(t23, 23);
    var t25 := Past(t24, 24);
    ListsStep(s, t21, 21);
    ListsStep(s, t22, 22);
    ListsStep(s, t23, 23);
    ListsStep(s, t24, 24);
    ListsStep(s, t25, 25);
    ListsStep(s, Past(t25, 25), 26);
  }

  /** The form, part by part. */
  lemma SessionParts(k: Known, toks: seq<Tok>, s: Session)
    requires |toks| >= 5
    ensures IsSession(k, toks, s) <==>
              var t3 := Past(Past(toks[5..], 1), 2);
              && HeadSays(k, s, toks) && PeerSays(s, t3) && AuthSays(s, PastPeer(t3)) && TicketSays(s, PastAuth(PastPeer(t3)))
              && k.certs(s.certs) && PastTicket(PastAuth(PastPeer(t3))) == []
  {
    hide Says, Elem, Past, Lists, PeerSays, AuthSays, TicketSays, PastPeer, PastAuth, PastTicket;
    var t3 := Past(Past(toks[5..], 1), 2);
    ListsStep(s, toks[5..], 1);
    ListsStep(s, Past(toks[5..], 1), 2);
    PeerLists(s, t3);
    AuthLists(s, PastPeer(t3));
    TicketLists(s, PastAuth(PastPeer(t3)));
  }

  lemma CertsIff(s: Session, leaf: Option<seq<u8>>, chain: Option<seq<seq<u8>>>)
    requires chain != Some([]) && (chain.Some? ==> leaf.Some?)
    ensures LeafIs(s.certs, leaf) && ChainIs(s.certs, chain) <==> s.certs == Certs(leaf, chain)
  {
  }

  lemma ChainNotEmpty(hasLeaf: bool, toks: seq<Tok>)
    requires ParseAuth(hasLeaf, toks).Good?
    ensures ParseAuth(hasLeaf, toks).value.chain != Some([]) && (ParseAuth(hasLeaf, toks).value.chain.Some? ==> hasLeaf)
  {
    hide OptOctets, OptNumber, OptBool;
  }

  lemma FormParses(k: Known, toks: seq<Tok>, s: Session)
    requires IsSession(k, toks, s)
    ensures Parse(k, toks) == Some(s)
  {
    hide ParseHead, ParsePeer, ParseAuth, ParseTicket, Says, Elem, Past, Lists, HeadSays, PeerSays, AuthSays, TicketSays,
      PastPeer, PastAuth, PastTicket, Certs, ChainIs;
    var t3 := Past(Past(toks[5..], 1), 2);
    SessionParts(k, toks, s);
    HeadIff(k, s, toks);
    PeerIff(s, t3);
    AuthIff(s, PastPeer(t3));
    TicketIff(s, PastAuth(PastPeer(t3)));
    ChainNotEmpty(s.certs != [], PastPeer(t3));
    CertsIff(s, ParsePeer(t3).value.leaf, ParseAuth(s.certs != [], PastPeer(t3)).value.chain);
  }

  lemma ParsedHasForm(k: Known, toks: seq<Tok>, s: Session)
    requires Parse(k, toks) == Some(s)
    ensures IsSession(k, toks, s)
  {
    hide ParseHead, ParsePeer, ParseAuth, ParseTicket, Says, Elem, Past, Lists, HeadSays, PeerSays, AuthSays, TicketSays,
      PastPeer, PastAuth, PastTicket, Certs, ChainIs, IsSession;
    HeadIff(k, s, toks);
    var t3 := Past(Past(toks[5..], 1), 2);
    PeerIff(s, t3);
    var leaf := ParsePeer(t3).value.leaf;
    var chain := ParseAuth(leaf.Some?, PastPeer(t3)).value.chain;
    ChainNotEmpty(leaf.Some?, PastPeer(t3));
    CertsIff(s, leaf, chain);
    AuthIff(s, PastPeer(t3));
    TicketIff(s, PastAuth(PastPeer(t3)));
    SessionParts(k, toks, s);
  }

  /** Parsing accepts exactly the sessions of this form, and gives back what the elements say. */
  lemma ParseIff(k: Known, toks: seq<Tok>, s: Session)
    ensures Parse(k, toks) == Some(s) <==> IsSession(k, toks, s)
  {
    hide Parse, IsSession;
    if IsSession(k, toks, s) {
      FormParses(k, toks, s);
    }
    if Parse(k, toks) == Some(s) {
      ParsedHasForm(k, toks, s);
    }
  }

  // ---------------------------------------------------------------- what is printed

  /** The element with context tag `n` that is printed, if any. */
  function Shown(s: Session, forTicket: bool, n: nat): Option<Body> {
    match n
    case 1 => Some(Number(s.time))
    case 2 => Some(Number(s.timeout))
    case 3 => if s.certs == [] || s.peerSha256.Some? then None else Some(Raw(s.certs[0]))
    case 4 => Some(Octets(s.sidCtx))
    case 5 =>
      if s.verifyResult == 0 then None
      else if s.verifyResult > 0 then Some(Number(s.verifyResult))
      else if s.verifyResult >= -U64 then Some(Number(s.verifyResult + U64))
      else None
    case 8 => if s.pskIdentity.None? then None else Some(Octets(s.pskIdentity.value))
    case 9 => if s.lifetimeHint == 0 then None else Some(Number(s.lifetimeHint))
    case 10 => if s.ticket.None? || forTicket then None else Some(Octets(s.ticket.value))
    case 13 => if s.peerSha256.None? then None else Some(Octets(s.peerSha256.value))
    case 14 => if s.handshakeHash == [] then None else Some(Octets(s.handshakeHash))
    case 15 => if s.sctList.None? then None else Some(Octets(s.sctList.value))
    case 16 => if s.ocspResponse.None? then None else Some(Octets(s.ocspResponse.value))
    case 17 => if !s.extendedMasterSecret then None else Some(Truth(true))
    case 18 => if s.groupId == 0 then None else Some(Number(s.groupId))
    case 19 => if |s.certs| <= 1 || s.peerSha256.Some? then None else Some(Chain(s.certs[1..]))
    case 21 =>
      if s.ticketAgeAdd.None? then None
      else
        var v := s.ticketAgeAdd.value;
        Some(Octets([v / 0x100_0000 % 256, v / 0x1_0000 % 256, v / 256 % 256, v % 256]))
    case 22 => if s.isServer then None else Some(Truth(false))
    case 23 => if s.peerSignatureAlgorithm == 0 then None else Some(Number(s.peerSignatureAlgorithm))
    case 24 => if s.maxEarlyData == 0 then None else Some(Number(s.maxEarlyData))
    case 25 => if s.authTimeout == s.timeout then None else Some(Number(s.authTimeout))
    case 26 => if s.earlyAlpn.None? then None else Some(Octets(s.earlyAlpn.value))
    case _ => None
  }

  /** The elements with tags from `n` on, in order. */
  function Shows(s: Session, forTicket: bool, n: nat): seq<Tok>
    decreases 27 - n
  {
    if n > 26 then [] else Emit(n, Shown(s, forTicket, n), Shows(s, forTicket, n + 1))
  }

  lemma ShowsStep(s: Session, forTicket: bool, n: nat)
    requires n <= 26
    ensures Shows(s, forTicket, n) == Emit(n, Shown(s, forTicket, n), Shows(s, forTicket, n + 1))
  {
  }

  lemma PeerShown(s: Session, forTicket: bool)
    requires Typed(s)
    ensures Shows(s, forTicket, 3) == PrintPeer(s, forTicket, Shows(s, forTicket, 13))
  {
    hide Shows, Emit, Shown;
    PeerBodies(s, forTicket);
    ShowsStep(s, forTicket, 3);
    ShowsStep(s, forTicket, 4);
    ShowsStep(s, forTicket, 5);
    NothingShown(s, forTicket, 6);
    NothingShown(s, forTicket, 7);
    ShowsStep(s, forTicket, 8);
    ShowsStep(s, forTicket, 9);
    ShowsStep(s, forTicket, 10);
    NothingShown(s, forTicket, 11);
    NothingShown(s, forTicket, 12);
  }

  lemma PeerBodies(s: Session, forTicket: bool)
    requires Typed(s)
    ensures Shown(s, forTicket, 3) == RawOf(LeafOf(s)) && Shown(s, forTicket, 4) == OctetsOf(Some(s.sidCtx))
    ensures Shown(s, forTicket, 5) == If(s.verifyResult != 0, Number(s.verifyResult % U64))
    ensures Shown(s, forTicket, 8) == OctetsOf(s.pskIdentity)
    ensures Shown(s, forTicket, 9) == If(s.lifetimeHint > 0, Number(s.lifetimeHint))
    ensures Shown(s, forTicket, 10) == OctetsOf(if forTicket then None else s.ticket)
  {
    NegativeWraps(s.verifyResult);
    assert s.verifyResult < 0 ==> s.verifyResult % U64 == s.verifyResult + U64;
  }

  lemma AuthShown(s: Session, forTicket: bool)
    ensures Shows(s, forTicket, 13) == PrintAuth(s, Shows(s, forTicket, 21))
  {
    hide Shows, Emit, Shown;
    AuthBodies(s, forTicket);
    ShowsStep(s, forTicket, 13);
    ShowsStep(s, forTicket, 14);
    ShowsStep(s, forTicket, 15);
    ShowsStep(s, forTicket, 16);
    ShowsStep(s, forTicket, 17);
    ShowsStep(s, forTicket, 18);
    ShowsStep(s, forTicket, 19);
    NothingShown(s, forTicket, 20);
  }

  lemma AuthBodies(s: Session, forTicket: bool)
    ensures Shown(s, forTicket, 13) == OctetsOf(s.peerSha256) && Shown(s, forTicket, 14) == OctetsIfAny(s.handshakeHash)
    ensures Shown(s, forTicket, 15) == OctetsOf(s.sctList) && Shown(s, forTicket, 16) == OctetsOf(s.ocspResponse)
    ensures Shown(s, forTicket, 17) == TruthUnless(s.extendedMasterSecret, false)
    ensures Shown(s, forTicket, 18) == If(s.groupId > 0, Number(s.groupId))
    ensures Shown(s, forTicket, 19) == ChainBody(ChainOf(s))
  {
  }

  lemma NothingShown(s: Session, forTicket: bool, n: nat)
    requires n in {6, 7, 11, 12, 20}
    ensures Shows(s, forTicket, n) == Shows(s, forTicket, n + 1)
  {
  }

  lemma TicketShown(s: Session, forTicket: bool)
    ensures Shows(s, forTicket, 21) == PrintTicket(s, [])
  {
    ShowsStep(s, forTicket, 21);
    ShowsStep(s, forTicket, 22);
    ShowsStep(s, forTicket, 23);
    ShowsStep(s, forTicket, 24);
    ShowsStep(s, forTicket, 25);
    ShowsStep(s, forTicket, 26);
  }

  /** What is printed, element by element: five in front, and then those with context tags in order. */
  lemma PrintIs(s: Session, forTicket: bool)
    requires Typed(s)
    ensures Print(s, forTicket)
         == [Tok(Integer, Number(1)), Tok(Integer, Number(s.sslVersion)),
             Tok(OctetString, Octets([s.cipher / 256, s.cipher % 256])),
             Tok(OctetString, Octets(if forTicket then [] else s.sessionId)), Tok(OctetString, Octets(s.masterKey))]
            + Shows(s, forTicket, 1)
  {
    hide PrintPeer, PrintAuth, PrintTicket, Shows;
    PeerShown(s, forTicket);
    AuthShown(s, forTicket);
    TicketShown(s, forTicket);
    ShowsStep(s, forTicket, 1);
    ShowsStep(s, forTicket, 2);
  }
}
