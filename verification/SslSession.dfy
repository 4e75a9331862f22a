/**
  The SSL_SESSION printer and parser of ssl_asn1.cc: a SEQUENCE of fixed fields and of
  optional ones whose tags increase, each omitted when it has its default.
 */
module SslSession {
  import opened Bits
  import opened Options
  import opened Der

  const VERSION := 1             // kVersion
  const MAX_SESSION_ID := 32
  const MAX_MASTER_KEY := 48
  const MAX_SID_CTX := 32
  const MAX_MD := 64
  const SHA256_LENGTH := 32
  const LONG_MAX := 0x7FFF_FFFF_FFFF_FFFF
  const X509_V_OK := 0

  // Context tags.
  const TIME: Byte := 0xA1
  const TIMEOUT: Byte := 0xA2
  const PEER: Byte := 0xA3
  const SID_CTX: Byte := 0xA4
  const VERIFY_RESULT: Byte := 0xA5
  const HOST_NAME: Byte := 0xA6
  const PSK_IDENTITY: Byte := 0xA8
  const LIFETIME_HINT: Byte := 0xA9
  const TICKET: Byte := 0xAA
  const PEER_SHA256: Byte := 0xAD
  const ORIGINAL_HASH: Byte := 0xAE
  const SCT_LIST: Byte := 0xAF
  const OCSP: Byte := 0xB0
  const EXTENDED_MASTER: Byte := 0xB1
  const GROUP_ID: Byte := 0xB2
  const CERT_CHAIN: Byte := 0xB3
  const AGE_ADD: Byte := 0xB5
  const IS_SERVER: Byte := 0xB6
  const PEER_SIGALG: Byte := 0xB7
  const MAX_EARLY_DATA: Byte := 0xB8
  const AUTH_TIMEOUT: Byte := 0xB9
  const EARLY_ALPN: Byte := 0xBA

  datatype Head = Head(sslVersion: nat, cipher: nat, sessionId: seq<Byte>, masterKey: seq<Byte>, time: nat, timeout: nat)

  /** Fields 4 to 10. */
  datatype Ticketing = Ticketing(sidCtx: seq<Byte>, verifyResult: nat, psk: Option<seq<Byte>>, hint: nat, ticket: Option<seq<Byte>>)

  /** Fields 13 to 18. */
  datatype Evidence = Evidence(peerSha256: Option<seq<Byte>>, originalHash: seq<Byte>, sct: Option<seq<Byte>>,
                               ocsp: Option<seq<Byte>>, extendedMaster: bool, groupId: nat)

  /** Fields 21 to 26. */
  datatype Limits = Limits(ageAdd: Option<nat>, isServer: bool, sigalg: nat, maxEarly: nat, authTimeout: nat, alpn: Option<seq<Byte>>)

  /** What of an SSL_SESSION is serialized. */
  datatype Session = Session(head: Head, ticketing: Ticketing, evidence: Evidence, certs: seq<seq<Byte>>, limits: Limits)

  /** ssl_protocol_version_from_wire. */
  predicate KnownVersion(v: nat) {
    v in {0x0300, 0x0301, 0x0302, 0x0303, 0x7F17, 0xFEFF, 0xFEFD}
  }

  // ------------------------------------------------------------------ serializing

  function U16(n: nat): seq<Byte> {
    [n / 0x100 % 0x100, n % 0x100]
  }

  function U32(n: nat): seq<Byte> {
    [n / 0x100_0000 % 0x100, n / 0x1_0000 % 0x100, n / 0x100 % 0x100, n % 0x100]
  }

  function HeadBytes(h: Head, rest: seq<Byte>): seq<Byte> {
    Uint(VERSION) + (Uint(h.sslVersion) + (Octets(U16(h.cipher)) + (Octets(h.sessionId) + (Octets(h.masterKey) +
    (Tlv(TIME, Uint(h.time)) + (Tlv(TIMEOUT, Uint(h.timeout)) + rest))))))
  }

  function TicketingBytes(t: Ticketing, rest: seq<Byte>): seq<Byte> {
    Tlv(SID_CTX, Octets(t.sidCtx)) + (OptUint(VERIFY_RESULT, t.verifyResult, X509_V_OK) +
    (OptOctets(PSK_IDENTITY, t.psk) + (OptUint(LIFETIME_HINT, t.hint, 0) + (OptOctets(TICKET, t.ticket) + rest))))
  }

  function EvidenceBytes(e: Evidence, rest: seq<Byte>): seq<Byte> {
    OptOctets(PEER_SHA256, e.peerSha256) +
    (OptOctets(ORIGINAL_HASH, if e.originalHash != [] then Some(e.originalHash) else None) +
    (OptOctets(SCT_LIST, e.sct) + (OptOctets(OCSP, e.ocsp) +
    (OptBool(EXTENDED_MASTER, e.extendedMaster, false) + (OptUint(GROUP_ID, e.groupId, 0) + rest)))))
  }

  function LimitsBytes(l: Limits, timeout: nat): seq<Byte> {
    OptOctets(AGE_ADD, if l.ageAdd.Some? then Some(U32(l.ageAdd.value)) else None) +
    (OptBool(IS_SERVER, l.isServer, true) + (OptUint(PEER_SIGALG, l.sigalg, 0) +
    (OptUint(MAX_EARLY_DATA, l.maxEarly, 0) + (OptUint(AUTH_TIMEOUT, l.authTimeout, timeout) + OptOctets(EARLY_ALPN, l.alpn)))))
  }

  function Concat(parts: seq<seq<Byte>>): seq<Byte> {
    if parts == [] then [] else parts[0] + Concat(parts[1..])
  }

  /** The certificates are left out when the hash of the leaf is kept instead. */
  function Kept(s: Session): seq<seq<Byte>> {
    if s.evidence.peerSha256.Some? then [] else s.certs
  }

  function ChainBytes(certs: seq<seq<Byte>>, rest: seq<Byte>): seq<Byte> {
    Optional(CERT_CHAIN, |certs| >= 2, if |certs| >= 2 then Concat(certs[1..]) else []) + rest
  }

  function PeerBytes(certs: seq<seq<Byte>>, rest: seq<Byte>): seq<Byte> {
    Optional(PEER, certs != [], if certs != [] then certs[0] else []) + rest
  }

  function Body(s: Session): seq<Byte> {
    HeadBytes(s.head, PeerBytes(Kept(s),
      TicketingBytes(s.ticketing, EvidenceBytes(s.evidence,
        ChainBytes(Kept(s), LimitsBytes(s.limits, s.head.timeout))))))
  }

  /** A ticket carries neither the session id nor the ticket. */
  function ForTicket(s: Session): Session {
    Session(Head(s.head.sslVersion, s.head.cipher, [], s.head.masterKey, s.head.time, s.head.timeout),
            Ticketing(s.ticketing.sidCtx, s.ticketing.verifyResult, s.ticketing.psk, s.ticketing.hint, None),
            s.evidence, s.certs, s.limits)
  }

  function Written(s: Session, forTicket: bool): Session {
    if forTicket then ForTicket(s) else s
  }

  /** SSL_SESSION_to_bytes_full; a body too long for its length bytes is an error. */
  function ToBytes(s: Session, forTicket: bool): Option<seq<Byte>> {
    var body := Body(Written(s, forTicket));
    if |body| >= LENGTH_LIMIT then None else Some(Tlv(SEQUENCE, body))
  }

  /** What SSL_SESSION_to_bytes writes for a session that must not be resumed. */
  const NOT_RESUMABLE: seq<Byte> := [0x4E, 0x4F, 0x54, 0x20, 0x52, 0x45, 0x53, 0x55, 0x4D, 0x41, 0x42, 0x4C, 0x45]

  /** SSL_SESSION_to_bytes. */
  function Serialize(s: Session, notResumable: bool): Option<seq<Byte>> {
    if notResumable then Some(NOT_RESUMABLE) else ToBytes(s, false)
  }

  // ------------------------------------------------------------------ parsing

  function GetU16(s: seq<Byte>): Option<nat> {
    if |s| != 2 then None else Some(BigEndian(s))
  }

  function ParseHead(s: seq<Byte>, known: nat -> bool): Option<Read<Head>> {
    var version :- GetUint(s);
    if version.value != VERSION then None
    else
      var sslVersion :- GetUint(version.rest);
      if !KnownVersion(sslVersion.value) then None
      else
        var cipher :- GetAsn1(sslVersion.rest, OCTET_STRING);
        var cipherValue :- GetU16(cipher.value);
        if !known(cipherValue) then None
        else
          var id :- GetAsn1(cipher.rest, OCTET_STRING);
          if |id.value| > MAX_SESSION_ID then None
          else
            var key :- GetAsn1(id.rest, OCTET_STRING);
            if |key.value| > MAX_MASTER_KEY then None
            else
              var time :- GetAsn1(key.rest, TIME);
              var timeValue :- GetUint(time.value);
              var timeout :- GetAsn1(time.rest, TIMEOUT);
              var timeoutValue :- GetUint(timeout.value);
              if timeoutValue.value > 0xFFFF_FFFF then None
              else
                Some(Read(Head(sslVersion.value, cipherValue, id.value, key.value, timeValue.value, timeoutValue.value), timeout.rest))
  }

  function OrEmpty(b: Option<seq<Byte>>): seq<Byte> {
    if b.Some? then b.value else []
  }

  /** CBS_stow keeps no pointer to an empty string. */
  function Stowed(b: Option<seq<Byte>>): Option<seq<Byte>> {
    if b == Some([]) then None else b
  }

  function ParseTicketing(s: seq<Byte>): Option<Read<Ticketing>> {
    var sidCtx :- GetOptionalOctets(s, SID_CTX);
    if |OrEmpty(sidCtx.value)| > MAX_SID_CTX then None
    else
      var verify :- GetOptionalUint(sidCtx.rest, VERIFY_RESULT, X509_V_OK);
      if verify.value > LONG_MAX then None
      else
        var host :- GetOptional(verify.rest, HOST_NAME);
        var psk :- GetOptionalOctets(host.rest, PSK_IDENTITY);
        if psk.value.Some? && 0 in psk.value.value then None
        else
          var hint :- GetOptionalUint(psk.rest, LIFETIME_HINT, 0);
          if hint.value > 0xFFFF_FFFF then None
          else
            var ticket :- GetOptionalOctets(hint.rest, TICKET);
            Some(Read(Ticketing(OrEmpty(sidCtx.value), verify.value, psk.value, hint.value, Stowed(ticket.value)), ticket.rest))
  }

  function ParseEvidence(s: seq<Byte>): Option<Read<Evidence>> {
    var sha :- GetOptionalOctets(s, PEER_SHA256);
    if sha.value.Some? && |sha.value.value| != SHA256_LENGTH then None
    else
      var hash :- GetOptionalOctets(sha.rest, ORIGINAL_HASH);
      if |OrEmpty(hash.value)| > MAX_MD then None
      else
        var sct :- GetOptionalOctets(hash.rest, SCT_LIST);
        var ocsp :- GetOptionalOctets(sct.rest, OCSP);
        var ems :- GetOptionalBool(ocsp.rest, EXTENDED_MASTER, false);
        var group :- GetOptionalUint(ems.rest, GROUP_ID, 0);
        if group.value > 0xFFFF then None
        else Some(Read(Evidence(sha.value, OrEmpty(hash.value), sct.value, ocsp.value, ems.value, group.value), group.rest))
  }

  function ParseLimits(s: seq<Byte>, timeout: nat): Option<Read<Limits>> {
    var age :- GetOptionalOctets(s, AGE_ADD);
    if age.value.Some? && |age.value.value| != 4 then None
    else
      var isServer :- GetOptionalBool(age.rest, IS_SERVER, true);
      var sigalg :- GetOptionalUint(isServer.rest, PEER_SIGALG, 0);
      var early :- GetOptionalUint(sigalg.rest, MAX_EARLY_DATA, 0);
      var auth :- GetOptionalUint(early.rest, AUTH_TIMEOUT, timeout);
      var alpn :- GetOptionalOctets(auth.rest, EARLY_ALPN);
      if sigalg.value > 0xFFFF || early.value > 0xFFFF_FFFF || auth.value > 0xFFFF_FFFF then None
      else
        var ageAdd := if age.value.Some? then Some(BigEndian(age.value.value)) else None;
        Some(Read(Limits(ageAdd, isServer.value, sigalg.value, early.value, auth.value, Stowed(alpn.value)), alpn.rest))
  }

  /** The certificates after the leaf: DER elements to the end of the field. */
  function ParseChain(s: seq<Byte>): Option<seq<seq<Byte>>>
    decreases |s|
  {
    if s == [] then Some([])
    else
      var e :- GetAny(s);
      var others :- ParseChain(e.rest);
      Some([s[..|s| - |e.rest|]] + others)
  }

  /** SSL_SESSION_parse; known tells the cipher suites of this library. */
  function Parse(s: seq<Byte>, known: nat -> bool): Option<Read<Session>> {
    var whole :- GetAsn1(s, SEQUENCE);
    var head :- ParseHead(whole.value, known);
    var peer :- GetOptional(head.rest, PEER);
    if peer.value == Some([]) then None
    else
      var ticketing :- ParseTicketing(peer.rest);
      var evidence :- ParseEvidence(ticketing.rest);
      var chain :- GetOptional(evidence.rest, CERT_CHAIN);
      if chain.value == Some([]) || (chain.value.Some? && peer.value.None?) then None
      else
        var others :- ParseChain(OrEmpty(chain.value));
        var limits :- ParseLimits(chain.rest, head.value.timeout);
        if limits.rest != [] then None
        else
          var certs := (if peer.value.Some? then [peer.value.value] else []) + others;
          Some(Read(Session(head.value, ticketing.value, evidence.value, certs, limits.value), whole.rest))
  }

  /** SSL_SESSION_from_bytes: nothing may follow the session. */
  function FromBytes(s: seq<Byte>, known: nat -> bool): Option<Session> {
    var r :- Parse(s, known);
    if r.rest != [] then None else Some(r.value)
  }

  // ------------------------------------------------------------------ round trip

  /** The ranges the fields of the C structure have. */
  predicate InRange(s: Session) {
    HeadInRange(s.head) && TicketingInRange(s.ticketing) && EvidenceInRange(s.evidence) && LimitsInRange(s.limits)
  }

  predicate HeadInRange(h: Head) {
    h.sslVersion < 0x1_0000 && h.cipher < 0x1_0000 && |h.sessionId| <= MAX_SESSION_ID && |h.masterKey| <= MAX_MASTER_KEY &&
    h.time < TWO_64 && h.timeout <= 0xFFFF_FFFF
  }

  /** The verify result is a long cast to uint64_t; the identity is a C string. */
  predicate TicketingInRange(t: Ticketing) {
    |t.sidCtx| <= MAX_SID_CTX && t.verifyResult < TWO_64 && (t.psk.Some? ==> 0 !in t.psk.value) && t.hint <= 0xFFFF_FFFF
  }

  predicate EvidenceInRange(e: Evidence) {
    (e.peerSha256.Some? ==> |e.peerSha256.value| == SHA256_LENGTH) && |e.originalHash| <= MAX_MD && e.groupId < 0x1_0000
  }

  predicate LimitsInRange(l: Limits) {
    (l.ageAdd.Some? ==> l.ageAdd.value <= 0xFFFF_FFFF) && l.sigalg < 0x1_0000 && l.maxEarly <= 0xFFFF_FFFF && l.authTimeout <= 0xFFFF_FFFF
  }

  lemma U16RoundTrip(n: nat)
    requires n < 0x1_0000
    ensures |U16(n)| == 2 && GetU16(U16(n)) == Some(n)
  {
    assert U16(n)[..1] == [n / 0x100];
    assert BigEndian(U16(n)[..1]) == n / 0x100;
  }

  lemma U32RoundTrip(n: nat)
    requires n <= 0xFFFF_FFFF
    ensures |U32(n)| == 4 && BigEndian(U32(n)) == n
  {
    var d := U32(n);
    assert n / 0x100 / 0x100 == n / 0x1_0000 && n / 0x1_0000 / 0x100 == n / 0x100_0000;
    assert d[..3][..2][..1] == [n / 0x100_0000];
    assert BigEndian(d[..3][..2][..1]) == n / 0x100_0000;
    assert BigEndian(d[..3][..2]) == n / 0x1_0000;
    assert BigEndian(d[..3]) == n / 0x100;
  }

  /** A number in its explicit tag. */
  lemma TaggedUint(tag: Byte, v: nat, rest: seq<Byte>)
    requires tag % 32 != 31 && v < TWO_64
    ensures GetAsn1(Tlv(tag, Uint(v)) + rest, tag) == Some(Read(Uint(v), rest)) && GetUint(Uint(v)) == Some(Read(v, []))
  {
    hide GetAsn1, Tlv, GetUint, Uint;
    UintRoundTrip(v, []);
    assert Uint(v) + [] == Uint(v);
    TlvRoundTrip(tag, Uint(v), rest);
  }

  lemma HeadRoundTrip(h: Head, rest: seq<Byte>, known: nat -> bool)
    requires HeadInRange(h)
    ensures ParseHead(HeadBytes(h, rest), known) ==
      if KnownVersion(h.sslVersion) && known(h.cipher) then Some(Read(h, rest)) else None
  {
    hide GetAsn1, Tlv, GetUint, Uint, GetU16, U16, KnownVersion;
    var timeout := Tlv(TIMEOUT, Uint(h.timeout)) + rest;
    TaggedUint(TIMEOUT, h.timeout, rest);
    var time := Tlv(TIME, Uint(h.time)) + timeout;
    TaggedUint(TIME, h.time, timeout);
    var key := Octets(h.masterKey) + time;
    TlvRoundTrip(OCTET_STRING, h.masterKey, time);
    var id := Octets(h.sessionId) + key;
    TlvRoundTrip(OCTET_STRING, h.sessionId, key);
    var cipher := Octets(U16(h.cipher)) + id;
    U16RoundTrip(h.cipher);
    TlvRoundTrip(OCTET_STRING, U16(h.cipher), id);
    UintRoundTrip(h.sslVersion, cipher);
    UintRoundTrip(VERSION, Uint(h.sslVersion) + cipher);
  }

  lemma TicketingRoundTrip(t: Ticketing, rest: seq<Byte>)
    requires TicketingInRange(t) && StartsAbove(rest, TICKET) && |TicketingBytes(t, rest)| < LENGTH_LIMIT
    ensures ParseTicketing(TicketingBytes(t, rest)) ==
      if t.verifyResult <= LONG_MAX
      then Some(Read(Ticketing(t.sidCtx, t.verifyResult, t.psk, t.hint, Stowed(t.ticket)), rest))
      else None
    ensures StartsAbove(TicketingBytes(t, rest), PEER)
  {
    hide GetOptionalOctets, GetOptionalUint, GetOptional, OptOctets, OptUint, StartsAbove;
    var ticket := OptOctets(TICKET, t.ticket) + rest;
    OptionalOctetsRoundTrip(TICKET, t.ticket, rest, LIFETIME_HINT);
    var hint := OptUint(LIFETIME_HINT, t.hint, 0) + ticket;
    OptionalUintRoundTrip(LIFETIME_HINT, t.hint, 0, ticket, PSK_IDENTITY);
    var psk := OptOctets(PSK_IDENTITY, t.psk) + hint;
    OptionalOctetsRoundTrip(PSK_IDENTITY, t.psk, hint, HOST_NAME);
    Absent(HOST_NAME, psk, VERIFY_RESULT);
    var verify := OptUint(VERIFY_RESULT, t.verifyResult, X509_V_OK) + psk;
    OptionalUintRoundTrip(VERIFY_RESULT, t.verifyResult, X509_V_OK, psk, SID_CTX);
    PresentOctets(SID_CTX, t.sidCtx);
    OptionalOctetsRoundTrip(SID_CTX, Some(t.sidCtx), verify, PEER);
  }

  lemma PresentOctets(tag: Byte, b: seq<Byte>)
    ensures OptOctets(tag, Some(b)) == Tlv(tag, Octets(b))
  {
  }

  lemma Absent(tag: Byte, s: seq<Byte>, below: Byte)
    requires below < tag && StartsAbove(s, tag)
    ensures GetOptional(s, tag) == Some(Read(None, s)) && StartsAbove(s, below)
  {
    hide GetAsn1;
  }

  /** What is not empty. */
  function NonEmpty(b: seq<Byte>): Option<seq<Byte>> {
    if b == [] then None else Some(b)
  }

  lemma EvidenceRoundTrip(e: Evidence, rest: seq<Byte>)
    requires EvidenceInRange(e) && StartsAbove(rest, GROUP_ID) && |EvidenceBytes(e, rest)| < LENGTH_LIMIT
    ensures ParseEvidence(EvidenceBytes(e, rest)) == Some(Read(e, rest))
    ensures StartsAbove(EvidenceBytes(e, rest), TICKET)
  {
    hide GetOptionalOctets, GetOptionalUint, GetOptionalBool, OptOctets, OptUint, OptBool, StartsAbove;
    var group := OptUint(GROUP_ID, e.groupId, 0) + rest;
    OptionalUintRoundTrip(GROUP_ID, e.groupId, 0, rest, EXTENDED_MASTER);
    var ems := OptBool(EXTENDED_MASTER, e.extendedMaster, false) + group;
    OptionalBoolRoundTrip(EXTENDED_MASTER, e.extendedMaster, false, group, OCSP);
    var ocsp := OptOctets(OCSP, e.ocsp) + ems;
    OptionalOctetsRoundTrip(OCSP, e.ocsp, ems, SCT_LIST);
    var sct := OptOctets(SCT_LIST, e.sct) + ocsp;
    OptionalOctetsRoundTrip(SCT_LIST, e.sct, ocsp, ORIGINAL_HASH);
    var hash := OptOctets(ORIGINAL_HASH, NonEmpty(e.originalHash)) + sct;
    OptionalOctetsRoundTrip(ORIGINAL_HASH, NonEmpty(e.originalHash), sct, PEER_SHA256);
    OptionalOctetsRoundTrip(PEER_SHA256, e.peerSha256, hash, TICKET);
  }

  function AgeAddBytes(age: Option<nat>): Option<seq<Byte>> {
    if age.None? then None else Some(U32(age.value))
  }

  lemma LimitsRoundTrip(l: Limits, timeout: nat)
    requires LimitsInRange(l) && |LimitsBytes(l, timeout)| < LENGTH_LIMIT
    ensures ParseLimits(LimitsBytes(l, timeout), timeout) ==
      Some(Read(Limits(l.ageAdd, l.isServer, l.sigalg, l.maxEarly, l.authTimeout, Stowed(l.alpn)), []))
    ensures StartsAbove(LimitsBytes(l, timeout), CERT_CHAIN)
  {
    hide GetOptionalOctets, GetOptionalUint, GetOptionalBool, OptOctets, OptUint, OptBool, StartsAbove, U32, BigEndian;
    var alpn := OptOctets(EARLY_ALPN, l.alpn);
    assert alpn + [] == alpn;
    NothingFollows(EARLY_ALPN);
    OptionalOctetsRoundTrip(EARLY_ALPN, l.alpn, [], AUTH_TIMEOUT);
    var auth := OptUint(AUTH_TIMEOUT, l.authTimeout, timeout) + alpn;
    OptionalUintRoundTrip(AUTH_TIMEOUT, l.authTimeout, timeout, alpn, MAX_EARLY_DATA);
    var early := OptUint(MAX_EARLY_DATA, l.maxEarly, 0) + auth;
    OptionalUintRoundTrip(MAX_EARLY_DATA, l.maxEarly, 0, auth, PEER_SIGALG);
    var sigalg := OptUint(PEER_SIGALG, l.sigalg, 0) + early;
    OptionalUintRoundTrip(PEER_SIGALG, l.sigalg, 0, early, IS_SERVER);
    var isServer := OptBool(IS_SERVER, l.isServer, true) + sigalg;
    OptionalBoolRoundTrip(IS_SERVER, l.isServer, true, sigalg, AGE_ADD);
    if l.ageAdd.Some? { U32RoundTrip(l.ageAdd.value); }
    OptionalOctetsRoundTrip(AGE_ADD, AgeAddBytes(l.ageAdd), isServer, CERT_CHAIN);
  }

  lemma NothingFollows(tag: Byte)
    ensures StartsAbove([], tag)
  {
  }

  /** The chain reads back as it was exactly if every certificate is one DER element. */
  lemma {:induction false} ChainRoundTrip(certs: seq<seq<Byte>>)
    ensures ParseChain(Concat(certs)) == Some(certs) <==> forall c :: c in certs ==> IsElement(c)
  {
    hide GetAny;
    if certs != [] {
      var s := Concat(certs);
      var others := Concat(certs[1..]);
      assert certs == [certs[0]] + certs[1..];
      assert s[..|certs[0]|] == certs[0] && s[|certs[0]|..] == others;
      GetAnyIsLocal(certs[0], others);
      GetAnySuffix(s);
      ChainRoundTrip(certs[1..]);
      ChainStep(s);
      if ParseChain(s) == Some(certs) {
        assert certs[0] == s[..|s| - |GetAny(s).value.rest|];
        assert GetAny(s).value.rest == others;
      }
    }
  }

  /** What reading the first certificate leaves for the others. */
  lemma ChainStep(s: seq<Byte>)
    ensures s == [] ==> ParseChain(s) == Some([])
    ensures s != [] && ParseChain(s).Some? ==>
      GetAny(s).Some? && ParseChain(GetAny(s).value.rest).Some? &&
      ParseChain(s).value == [s[..|s| - |GetAny(s).value.rest|]] + ParseChain(GetAny(s).value.rest).value
  {
    hide GetAny;
  }

  lemma PeerRoundTrip(certs: seq<seq<Byte>>, rest: seq<Byte>)
    requires StartsAbove(rest, PEER) && |PeerBytes(certs, rest)| < LENGTH_LIMIT
    ensures GetOptional(PeerBytes(certs, rest), PEER) == Some(Read(if certs != [] then Some(certs[0]) else None, rest))
  {
    hide GetOptional, Tlv;
    OptionalRoundTrip(PEER, certs != [], if certs != [] then certs[0] else [], rest, TIMEOUT);
  }

  function ChainField(certs: seq<seq<Byte>>): Option<seq<Byte>> {
    if |certs| >= 2 then Some(Concat(certs[1..])) else None
  }

  lemma ChainFieldRoundTrip(certs: seq<seq<Byte>>, rest: seq<Byte>)
    requires StartsAbove(rest, CERT_CHAIN) && |ChainBytes(certs, rest)| < LENGTH_LIMIT
    ensures GetOptional(ChainBytes(certs, rest), CERT_CHAIN) == Some(Read(ChainField(certs), rest))
    ensures StartsAbove(ChainBytes(certs, rest), GROUP_ID)
  {
    hide GetOptional, Tlv, Concat, StartsAbove;
    OptionalRoundTrip(CERT_CHAIN, |certs| >= 2, if |certs| >= 2 then Concat(certs[1..]) else [], rest, GROUP_ID);
  }

  /** No part of a session is longer than the whole. */
  lemma PartsAreShorter(s: Session)
    ensures |EvidenceBytes(s.evidence, ChainBytes(Kept(s), LimitsBytes(s.limits, s.head.timeout)))| <=
      |TicketingBytes(s.ticketing, EvidenceBytes(s.evidence, ChainBytes(Kept(s), LimitsBytes(s.limits, s.head.timeout))))| <=
      |PeerBytes(Kept(s), TicketingBytes(s.ticketing, EvidenceBytes(s.evidence, ChainBytes(Kept(s), LimitsBytes(s.limits, s.head.timeout)))))| <=
      |Body(s)|
    ensures |LimitsBytes(s.limits, s.head.timeout)| <= |ChainBytes(Kept(s), LimitsBytes(s.limits, s.head.timeout))| <=
      |EvidenceBytes(s.evidence, ChainBytes(Kept(s), LimitsBytes(s.limits, s.head.timeout)))|
  {
    hide Tlv, Uint, OptOctets, OptUint, OptBool, Concat;
  }

  /** What a session is once it was written and read: only the hash of the leaf is kept where
      there is one, and an empty ticket or ALPN string is as good as none. */
  function Restored(s: Session): Session {
    Session(s.head,
            Ticketing(s.ticketing.sidCtx, s.ticketing.verifyResult, s.ticketing.psk, s.ticketing.hint, Stowed(s.ticketing.ticket)),
            s.evidence, Kept(s),
            Limits(s.limits.ageAdd, s.limits.isServer, s.limits.sigalg, s.limits.maxEarly, s.limits.authTimeout, Stowed(s.limits.alpn)))
  }

  /** What can be read back: a version and a cipher suite of this library, a verify result that
      was not negative, and certificates that are a leaf and then DER elements. */
  predicate Restorable(s: Session, known: nat -> bool) {
    KnownVersion(s.head.sslVersion) && known(s.head.cipher) && s.ticketing.verifyResult <= LONG_MAX &&
    (Kept(s) != [] ==> Kept(s)[0] != [] && forall c :: c in Kept(s)[1..] ==> IsElement(c))
  }

  lemma {:induction false} ElementsAreNotEmpty(certs: seq<seq<Byte>>)
    ensures certs != [] && (forall c :: c in certs ==> IsElement(c)) ==> Concat(certs) != []
  {
    if certs != [] { assert certs[0] in certs; }
  }

  /** Parsing a serialized session gives back every serialized field and every default, and
      does so exactly for the sessions that can be read back. */
  lemma RoundTrip(s: Session, known: nat -> bool, rest: seq<Byte>)
    requires InRange(s) && |Body(s)| < LENGTH_LIMIT
    ensures Parse(Tlv(SEQUENCE, Body(s)) + rest, known) == Some(Read(Restored(s), rest)) <==> Restorable(s, known)
  {
    hide Tlv, GetAsn1, GetOptional, HeadBytes, PeerBytes, TicketingBytes, EvidenceBytes, ChainBytes, LimitsBytes,
      ParseHead, ParseTicketing,
      ParseEvidence, ParseLimits, ParseChain, IsElement, StartsAbove, Concat, HeadInRange, TicketingInRange, EvidenceInRange, LimitsInRange,
      KnownVersion, Stowed;
    PartsAreShorter(s);
    var certs := Kept(s);
    var limits := LimitsBytes(s.limits, s.head.timeout);
    LimitsRoundTrip(s.limits, s.head.timeout);
    var chain := ChainBytes(certs, limits);
    ChainFieldRoundTrip(certs, limits);
    var evidence := EvidenceBytes(s.evidence, chain);
    EvidenceRoundTrip(s.evidence, chain);
    var ticketing := TicketingBytes(s.ticketing, evidence);
    TicketingRoundTrip(s.ticketing, evidence);
    var peer := PeerBytes(certs, ticketing);
    PeerRoundTrip(certs, ticketing);
    HeadRoundTrip(s.head, peer, known);
    TlvRoundTrip(SEQUENCE, Body(s), rest);
    Certificates(certs);
    var others := ParseChain(OrEmpty(ChainField(certs)));
    if certs != [] && others.Some? && [certs[0]] + others.value == certs {
      assert others.value == ([certs[0]] + others.value)[1..];
    }
  }

  /** What the parser makes of the two certificate fields. */
  lemma Certificates(certs: seq<seq<Byte>>)
    ensures certs == [] ==> ParseChain([]) == Some([])
    ensures certs != [] ==>
      (ChainField(certs) != Some([]) && ParseChain(OrEmpty(ChainField(certs))) == Some(certs[1..]) <==>
       forall c :: c in certs[1..] ==> IsElement(c))
    ensures certs != [] ==> certs == [certs[0]] + certs[1..]
  {
    hide IsElement, ParseChain;
    ChainStep([]);
    if certs != [] {
      ChainRoundTrip(certs[1..]);
      ElementsAreNotEmpty(certs[1..]);
    }
  }

  /** The same for the session and the ticket form that SSL_SESSION_to_bytes_full writes. */
  lemma SessionRoundTrip(s: Session, forTicket: bool, known: nat -> bool, rest: seq<Byte>)
    requires InRange(s) && ToBytes(s, forTicket).Some?
    ensures Parse(ToBytes(s, forTicket).value + rest, known) == Some(Read(Restored(Written(s, forTicket)), rest)) <==> Restorable(s, known)
    ensures FromBytes(ToBytes(s, forTicket).value, known) == Some(Restored(Written(s, forTicket))) <==> Restorable(s, known)
  {
    hide Parse, Body, KnownVersion, IsElement, Tlv;
    RoundTrip(Written(s, forTicket), known, rest);
    RoundTrip(Written(s, forTicket), known, []);
    assert ToBytes(s, forTicket).value + [] == ToBytes(s, forTicket).value;
  }

  /** The bytes determine every serialized field. */
  lemma BytesDetermineSession(s: Session, t: Session, known: nat -> bool)
    requires InRange(s) && Restorable(s, known) && InRange(t) && Restorable(t, known)
    requires ToBytes(s, false).Some? && ToBytes(s, false) == ToBytes(t, false)
    ensures Restored(s) == Restored(t)
  {
    hide Parse, Body, InRange, Restorable, Restored;
    SessionRoundTrip(s, false, known, []);
    SessionRoundTrip(t, false, known, []);
  }

  /** The placeholder for a session that must not be resumed never parses. */
  lemma PlaceholderIsRejected(s: Session, known: nat -> bool, rest: seq<Byte>)
    ensures Serialize(s, true).Some? && Parse(Serialize(s, true).value + rest, known).None?
  {
    hide ParseHead, ParseTicketing, ParseEvidence, ParseLimits, ParseChain, GetLength;
    assert (NOT_RESUMABLE + rest)[0] == 0x4E;
  }

  lemma ParsedHead(s: seq<Byte>, known: nat -> bool)
    ensures var r := ParseHead(s, known);
      r.Some? ==> HeadInRange(r.value.value) && KnownVersion(r.value.value.sslVersion) && known(r.value.value.cipher)
  {
    hide GetAsn1, GetUint, Pow2;
    var r := ParseHead(s, known);
    if r.Some? {
      var version := GetUint(s).value;
      var sslVersion := GetUint(version.rest).value;
      var cipher := GetAsn1(sslVersion.rest, OCTET_STRING).value;
      BigEndianBound(cipher.value);
      Pow2Sixteen();
      var id := GetAsn1(cipher.rest, OCTET_STRING).value;
      var key := GetAsn1(id.rest, OCTET_STRING).value;
      var time := GetAsn1(key.rest, TIME).value;
      GetUintFits(time.value);
    }
  }

  lemma ParsedTicketing(s: seq<Byte>)
    ensures var r := ParseTicketing(s);
      r.Some? ==> TicketingInRange(r.value.value) && r.value.value.verifyResult <= LONG_MAX && r.value.value.ticket != Some([])
  {
    hide GetOptionalOctets, GetOptionalUint, GetOptional;
  }

  lemma ParsedEvidence(s: seq<Byte>)
    ensures ParseEvidence(s).Some? ==> EvidenceInRange(ParseEvidence(s).value.value)
  {
    hide GetOptionalOctets, GetOptionalUint, GetOptionalBool;
  }

  lemma ParsedLimits(s: seq<Byte>, timeout: nat)
    ensures var r := ParseLimits(s, timeout);
      r.Some? ==> LimitsInRange(r.value.value) && r.value.value.alpn != Some([])
  {
    hide GetOptionalOctets, GetOptionalUint, GetOptionalBool, Pow2, BigEndian;
    var age := GetOptionalOctets(s, AGE_ADD);
    if age.Some? && age.value.value.Some? {
      BigEndianBound(age.value.value.value);
      Pow2Sixteen();
      Pow2Add(16, 16);
    }
  }

  lemma {:induction false} ParsedChain(s: seq<Byte>)
    ensures ParseChain(s).Some? ==> forall c :: c in ParseChain(s).value ==> IsElement(c)
    decreases |s|
  {
    hide GetAny;
    ChainStep(s);
    if s != [] && ParseChain(s).Some? {
      var rest := GetAny(s).value.rest;
      GetAnySuffix(s);
      ParsedChain(rest);
      var c := s[..|s| - |rest|];
      assert c + rest == s;
      GetAnyIsLocal(c, rest);
    }
  }

  /** Whatever the parser accepts is a session that can be written and read back, and where it
      does not hold the certificates beside their hash, reading back gives the very same. */
  lemma ParsedCanBeRestored(s: seq<Byte>, known: nat -> bool)
    ensures Parse(s, known).Some? ==>
      var v := Parse(s, known).value.value;
      InRange(v) && Restorable(v, known) && (Restored(v) == v <==> v.evidence.peerSha256.None? || v.certs == [])
  {
    hide GetAsn1, GetOptional, ParseHead, ParseTicketing, ParseEvidence, ParseLimits, ParseChain, IsElement,
      HeadInRange, TicketingInRange,
      EvidenceInRange, LimitsInRange, KnownVersion;
    if Parse(s, known).Some? {
      var whole := GetAsn1(s, SEQUENCE).value;
      ParsedHead(whole.value, known);
      var head := ParseHead(whole.value, known).value;
      var peer := GetOptional(head.rest, PEER).value;
      ParsedTicketing(peer.rest);
      var ticketing := ParseTicketing(peer.rest).value;
      ParsedEvidence(ticketing.rest);
      var evidence := ParseEvidence(ticketing.rest).value;
      var chain := GetOptional(evidence.rest, CERT_CHAIN).value;
      ParsedChain(OrEmpty(chain.value));
      ParsedLimits(chain.rest, head.value.timeout);
      ChainStep([]);
      var v := Parse(s, known).value.value;
      if v.certs != [] { assert v.certs[1..] == ParseChain(OrEmpty(chain.value)).value; }
    }
  }
}
