/**
  The printer and parser of ssl_asn1.cc as they run: the printer appends to a CBB, the
  parser advances a CBS. Both compute the functions of SslSession.
 */
module SslSessionCodec {
  import opened Bits
  import opened Options
  import opened Der
  import opened SslSession

  /** A CBB: bytes appended so far. That a child reserved, filled and flushed is the element
      appended whole is shown in CbbBuffer. */
  class Cbb {
    var out: seq<Byte>

    constructor ()
      ensures out == []
    {
      out := [];
    }

    /** CBB_add_asn1 and the contents of the child. */
    method AddAsn1(tag: Byte, body: seq<Byte>)
      modifies this
      ensures out == old(out) + Tlv(tag, body)
    {
      out := out + Tlv(tag, body);
    }

    method AddUint(v: nat)
      modifies this
      ensures out == old(out) + Uint(v)
    {
      out := out + Uint(v);
    }

    /** An explicitly tagged octet string, where there is one. */
    method AddOptionalOctets(tag: Byte, b: Option<seq<Byte>>)
      modifies this
      ensures out == old(out) + OptOctets(tag, b)
    {
      hide Tlv;
      if b.Some? { AddAsn1(tag, Octets(b.value)); }
    }

    method AddOptionalUint(tag: Byte, v: nat, default: nat)
      modifies this
      ensures out == old(out) + OptUint(tag, v, default)
    {
      hide Tlv, Uint;
      if v != default { AddAsn1(tag, Uint(v)); }
    }

    method AddOptionalBool(tag: Byte, v: bool, default: bool)
      modifies this
      ensures out == old(out) + OptBool(tag, v, default)
    {
      hide Tlv;
      if v != default { AddAsn1(tag, Bool(v)); }
    }
  }

  method AddHead(cbb: Cbb, h: Head)
    modifies cbb
    ensures cbb.out == old(cbb.out) + HeadBytes(h, [])
  {
    hide Tlv, Uint, U16;
    ghost var was := cbb.out;
    cbb.AddUint(VERSION);
    cbb.AddUint(h.sslVersion);
    cbb.AddAsn1(OCTET_STRING, U16(h.cipher));
    cbb.AddAsn1(OCTET_STRING, h.sessionId);
    cbb.AddAsn1(OCTET_STRING, h.masterKey);
    cbb.AddAsn1(TIME, Uint(h.time));
    cbb.AddAsn1(TIMEOUT, Uint(h.timeout));
    assert cbb.out == was + HeadBytes(h, []);
  }

  method AddTicketing(cbb: Cbb, t: Ticketing)
    modifies cbb
    ensures cbb.out == old(cbb.out) + TicketingBytes(t, [])
  {
    hide Tlv, OptUint, OptOctets;
    ghost var was := cbb.out;
    cbb.AddAsn1(SID_CTX, Octets(t.sidCtx));
    cbb.AddOptionalUint(VERIFY_RESULT, t.verifyResult, X509_V_OK);
    cbb.AddOptionalOctets(PSK_IDENTITY, t.psk);
    cbb.AddOptionalUint(LIFETIME_HINT, t.hint, 0);
    cbb.AddOptionalOctets(TICKET, t.ticket);
    assert cbb.out == was + TicketingBytes(t, []);
  }

  method AddEvidence(cbb: Cbb, e: Evidence)
    modifies cbb
    ensures cbb.out == old(cbb.out) + EvidenceBytes(e, [])
  {
    hide OptBool, OptUint, OptOctets;
    ghost var was := cbb.out;
    cbb.AddOptionalOctets(PEER_SHA256, e.peerSha256);
    cbb.AddOptionalOctets(ORIGINAL_HASH, NonEmpty(e.originalHash));
    cbb.AddOptionalOctets(SCT_LIST, e.sct);
    cbb.AddOptionalOctets(OCSP, e.ocsp);
    cbb.AddOptionalBool(EXTENDED_MASTER, e.extendedMaster, false);
    cbb.AddOptionalUint(GROUP_ID, e.groupId, 0);
    assert cbb.out == was + EvidenceBytes(e, []);
  }

  method AddLimits(cbb: Cbb, l: Limits, timeout: nat)
    modifies cbb
    ensures cbb.out == old(cbb.out) + LimitsBytes(l, timeout)
  {
    hide OptBool, OptUint, OptOctets, U32;
    ghost var was := cbb.out;
    cbb.AddOptionalOctets(AGE_ADD, AgeAddBytes(l.ageAdd));
    cbb.AddOptionalBool(IS_SERVER, l.isServer, true);
    cbb.AddOptionalUint(PEER_SIGALG, l.sigalg, 0);
    cbb.AddOptionalUint(MAX_EARLY_DATA, l.maxEarly, 0);
    cbb.AddOptionalUint(AUTH_TIMEOUT, l.authTimeout, timeout);
    cbb.AddOptionalOctets(EARLY_ALPN, l.alpn);
    assert cbb.out == was + LimitsBytes(l, timeout);
  }

  /** The certificates after the leaf, one after the other. */
  method AddChain(cbb: Cbb, certs: seq<seq<Byte>>)
    modifies cbb
    ensures cbb.out == old(cbb.out) + ChainBytes(certs, [])
  {
    hide Tlv, Concat, ChainBytes;
    ChainAppended(certs);
    assert cbb.out + [] == cbb.out;
    ConcatStep(certs, |certs|);
    if |certs| >= 2 {
      var child := [];
      var i := 1;
      while i < |certs|
        invariant 1 <= i <= |certs|
        invariant cbb.out == old(cbb.out) && Concat(certs[1..]) == child + Concat(certs[i..])
      {
        ConcatStep(certs, i);
        child := child + certs[i];
        i := i + 1;
      }
      assert Concat(certs[i..]) == [];
      assert child == Concat(certs[1..]);
      cbb.AddAsn1(CERT_CHAIN, child);
    }
  }

  lemma ChainAppended(certs: seq<seq<Byte>>)
    ensures ChainBytes(certs, []) == if |certs| >= 2 then Tlv(CERT_CHAIN, Concat(certs[1..])) else []
  {
    hide Tlv, Concat;
  }

  lemma ConcatStep(certs: seq<seq<Byte>>, i: nat)
    requires i <= |certs|
    ensures i < |certs| ==> Concat(certs[i..]) == certs[i] + Concat(certs[i + 1..])
    ensures i == |certs| ==> Concat(certs[i..]) == []
  {
    if i < |certs| { assert certs[i..][1..] == certs[i + 1..]; }
  }

  /** SSL_SESSION_to_bytes_full. */
  method SessionToBytes(s: Session, forTicket: bool) returns (r: Option<seq<Byte>>)
    ensures r == ToBytes(s, forTicket)
  {
    hide HeadBytes, PeerBytes, TicketingBytes, EvidenceBytes, ChainBytes, LimitsBytes, Tlv;
    var w := Written(s, forTicket);
    var session := new Cbb();
    AddHead(session, w.head);
    var certs := Kept(w);
    if certs != [] { session.AddAsn1(PEER, certs[0]); }
    PeerAppended(certs);
    AddTicketing(session, w.ticketing);
    AddEvidence(session, w.evidence);
    AddChain(session, certs);
    AddLimits(session, w.limits, w.head.timeout);
    BodyInOrder(w);
    assert session.out == Body(w);
    if |session.out| >= LENGTH_LIMIT { return None; }
    var cbb := new Cbb();
    cbb.AddAsn1(SEQUENCE, session.out);
    assert cbb.out == Tlv(SEQUENCE, Body(w));
    return Some(cbb.out);
  }

  lemma PeerAppended(certs: seq<seq<Byte>>)
    ensures PeerBytes(certs, []) == if certs != [] then Tlv(PEER, certs[0]) else []
  {
  }

  /** The parts written one after the other are the body. */
  lemma BodyInOrder(s: Session)
    ensures Body(s) == HeadBytes(s.head, []) + PeerBytes(Kept(s), []) + TicketingBytes(s.ticketing, []) + EvidenceBytes(s.evidence, [])
      + ChainBytes(Kept(s), []) + LimitsBytes(s.limits, s.head.timeout)
  {
    hide HeadBytes, PeerBytes, TicketingBytes, EvidenceBytes, ChainBytes, LimitsBytes;
    var limits := LimitsBytes(s.limits, s.head.timeout);
    ChainThen(Kept(s), limits);
    var chain := ChainBytes(Kept(s), limits);
    EvidenceThen(s.evidence, chain);
    var evidence := EvidenceBytes(s.evidence, chain);
    TicketingThen(s.ticketing, evidence);
    var ticketing := TicketingBytes(s.ticketing, evidence);
    PeerThen(Kept(s), ticketing);
    HeadThen(s.head, PeerBytes(Kept(s), ticketing));
  }

  lemma HeadThen(h: Head, rest: seq<Byte>)
    ensures HeadBytes(h, rest) == HeadBytes(h, []) + rest
  {
    hide Tlv, Uint, U16;
  }

  lemma PeerThen(certs: seq<seq<Byte>>, rest: seq<Byte>)
    ensures PeerBytes(certs, rest) == PeerBytes(certs, []) + rest
  {
    hide Tlv;
  }

  lemma TicketingThen(t: Ticketing, rest: seq<Byte>)
    ensures TicketingBytes(t, rest) == TicketingBytes(t, []) + rest
  {
    hide Tlv, OptUint, OptOctets;
  }

  lemma EvidenceThen(e: Evidence, rest: seq<Byte>)
    ensures EvidenceBytes(e, rest) == EvidenceBytes(e, []) + rest
  {
    hide OptBool, OptUint, OptOctets;
  }

  lemma ChainThen(certs: seq<seq<Byte>>, rest: seq<Byte>)
    ensures ChainBytes(certs, rest) == ChainBytes(certs, []) + rest
  {
    hide Tlv, Concat;
  }

  /** A CBS: what is left to read. */
  class Cbs {
    var data: seq<Byte>

    constructor (bytes: seq<Byte>)
      ensures data == bytes
    {
      data := bytes;
    }

    method Asn1(tag: Byte) returns (r: Option<seq<Byte>>)
      modifies this
      ensures var e := GetAsn1(old(data), tag);
        r.Some? == e.Some? && (e.Some? ==> r == Some(e.value.value) && data == e.value.rest)
    {
      var e := GetAsn1(data, tag);
      if e.None? { return None; }
      data := e.value.rest;
      return Some(e.value.value);
    }

    /** CBS_get_any_asn1_element. */
    method Element() returns (r: Option<seq<Byte>>)
      modifies this
      ensures var e := GetAny(old(data));
        r.Some? == e.Some? && (e.Some? ==> r == Some(old(data)[..|old(data)| - |e.value.rest|]) && data == e.value.rest)
    {
      var e := GetAny(data);
      if e.None? { return None; }
      r := Some(data[..|data| - |e.value.rest|]);
      data := e.value.rest;
    }

    method UintValue() returns (r: Option<nat>)
      modifies this
      ensures var e := GetUint(old(data));
        r.Some? == e.Some? && (e.Some? ==> r == Some(e.value.value) && data == e.value.rest)
    {
      var e := GetUint(data);
      if e.None? { return None; }
      data := e.value.rest;
      return Some(e.value.value);
    }

    method OptionalElement(tag: Byte) returns (r: Option<Option<seq<Byte>>>)
      modifies this
      ensures var e := GetOptional(old(data), tag);
        r.Some? == e.Some? && (e.Some? ==> r == Some(e.value.value) && data == e.value.rest)
    {
      var e := GetOptional(data, tag);
      if e.None? { return None; }
      data := e.value.rest;
      return Some(e.value.value);
    }

    method OptionalOctets(tag: Byte) returns (r: Option<Option<seq<Byte>>>)
      modifies this
      ensures var e := GetOptionalOctets(old(data), tag);
        r.Some? == e.Some? && (e.Some? ==> r == Some(e.value.value) && data == e.value.rest)
    {
      hide GetAsn1;
      var e := OptionalElement(tag);
      if e.None? { return None; }
      if e.value.None? { return Some(None); }
      var child := GetAsn1(e.value.value, OCTET_STRING);
      if child.None? || child.value.rest != [] { return None; }
      return Some(Some(child.value.value));
    }

    method OptionalUint(tag: Byte, default: nat) returns (r: Option<nat>)
      modifies this
      ensures var e := GetOptionalUint(old(data), tag, default);
        r.Some? == e.Some? && (e.Some? ==> r == Some(e.value.value) && data == e.value.rest)
    {
      hide GetUint;
      var e := OptionalElement(tag);
      if e.None? { return None; }
      if e.value.None? { return Some(default); }
      var child := GetUint(e.value.value);
      if child.None? || child.value.rest != [] { return None; }
      return Some(child.value.value);
    }

    method OptionalBool(tag: Byte, default: bool) returns (r: Option<bool>)
      modifies this
      ensures var e := GetOptionalBool(old(data), tag, default);
        r.Some? == e.Some? && (e.Some? ==> r == Some(e.value.value) && data == e.value.rest)
    {
      hide GetAsn1;
      var e := OptionalElement(tag);
      if e.None? { return None; }
      if e.value.None? { return Some(default); }
      var child := GetAsn1(e.value.value, BOOLEAN);
      if child.None? || child.value.rest != [] || |child.value.value| != 1 { return None; }
      if child.value.value[0] == 0 { return Some(false); }
      if child.value.value[0] == 0xFF { return Some(true); }
      return None;
    }
  }

  method ReadHead(cbs: Cbs, known: nat -> bool) returns (r: Option<Head>)
    modifies cbs
    ensures var e := ParseHead(old(cbs.data), known);
      r.Some? == e.Some? && (e.Some? ==> r == Some(e.value.value) && cbs.data == e.value.rest)
  {
    hide GetAsn1, GetUint, KnownVersion, GetU16;
    var version := cbs.UintValue();
    if version != Some(VERSION) { return None; }
    var sslVersion := cbs.UintValue();
    if sslVersion.None? || !KnownVersion(sslVersion.value) { return None; }
    var cipher := cbs.Asn1(OCTET_STRING);
    if cipher.None? { return None; }
    var cipherValue := GetU16(cipher.value);
    if cipherValue.None? || !known(cipherValue.value) { return None; }
    var id := cbs.Asn1(OCTET_STRING);
    if id.None? || |id.value| > MAX_SESSION_ID { return None; }
    var key := cbs.Asn1(OCTET_STRING);
    if key.None? || |key.value| > MAX_MASTER_KEY { return None; }
    var time := cbs.Asn1(TIME);
    if time.None? { return None; }
    var timeValue := GetUint(time.value);
    if timeValue.None? { return None; }
    var timeout := cbs.Asn1(TIMEOUT);
    if timeout.None? { return None; }
    var timeoutValue := GetUint(timeout.value);
    if timeoutValue.None? || timeoutValue.value.value > 0xFFFF_FFFF { return None; }
    return Some(Head(sslVersion.value, cipherValue.value, id.value, key.value, timeValue.value.value, timeoutValue.value.value));
  }

  method ReadTicketing(cbs: Cbs) returns (r: Option<Ticketing>)
    modifies cbs
    ensures var e := ParseTicketing(old(cbs.data));
      r.Some? == e.Some? && (e.Some? ==> r == Some(e.value.value) && cbs.data == e.value.rest)
  {
    hide GetOptional, GetOptionalOctets, GetOptionalUint;
    var sidCtx := cbs.OptionalOctets(SID_CTX);
    if sidCtx.None? || |OrEmpty(sidCtx.value)| > MAX_SID_CTX { return None; }
    var verify := cbs.OptionalUint(VERIFY_RESULT, X509_V_OK);
    if verify.None? || verify.value > LONG_MAX { return None; }
    var host := cbs.OptionalElement(HOST_NAME);
    if host.None? { return None; }
    var psk := cbs.OptionalOctets(PSK_IDENTITY);
    if psk.None? || (psk.value.Some? && 0 in psk.value.value) { return None; }
    var hint := cbs.OptionalUint(LIFETIME_HINT, 0);
    if hint.None? || hint.value > 0xFFFF_FFFF { return None; }
    var ticket := cbs.OptionalOctets(TICKET);
    if ticket.None? { return None; }
    return Some(Ticketing(OrEmpty(sidCtx.value), verify.value, psk.value, hint.value, Stowed(ticket.value)));
  }

  method ReadEvidence(cbs: Cbs) returns (r: Option<Evidence>)
    modifies cbs
    ensures var e := ParseEvidence(old(cbs.data));
      r.Some? == e.Some? && (e.Some? ==> r == Some(e.value.value) && cbs.data == e.value.rest)
  {
    hide GetOptionalOctets, GetOptionalUint, GetOptionalBool;
    var sha := cbs.OptionalOctets(PEER_SHA256);
    if sha.None? || (sha.value.Some? && |sha.value.value| != SHA256_LENGTH) { return None; }
    var hash := cbs.OptionalOctets(ORIGINAL_HASH);
    if hash.None? || |OrEmpty(hash.value)| > MAX_MD { return None; }
    var sct := cbs.OptionalOctets(SCT_LIST);
    if sct.None? { return None; }
    var ocsp := cbs.OptionalOctets(OCSP);
    if ocsp.None? { return None; }
    var ems := cbs.OptionalBool(EXTENDED_MASTER, false);
    if ems.None? { return None; }
    var group := cbs.OptionalUint(GROUP_ID, 0);
    if group.None? || group.value > 0xFFFF { return None; }
    return Some(Evidence(sha.value, OrEmpty(hash.value), sct.value, ocsp.value, ems.value, group.value));
  }

  method ReadLimits(cbs: Cbs, timeout: nat) returns (r: Option<Limits>)
    modifies cbs
    ensures var e := ParseLimits(old(cbs.data), timeout);
      r.Some? == e.Some? && (e.Some? ==> r == Some(e.value.value) && cbs.data == e.value.rest)
  {
    hide GetOptionalOctets, GetOptionalUint, GetOptionalBool, BigEndian;
    var age := cbs.OptionalOctets(AGE_ADD);
    if age.None? || (age.value.Some? && |age.value.value| != 4) { return None; }
    var isServer := cbs.OptionalBool(IS_SERVER, true);
    if isServer.None? { return None; }
    var sigalg := cbs.OptionalUint(PEER_SIGALG, 0);
    if sigalg.None? || sigalg.value > 0xFFFF { return None; }
    var early := cbs.OptionalUint(MAX_EARLY_DATA, 0);
    if early.None? || early.value > 0xFFFF_FFFF { return None; }
    var auth := cbs.OptionalUint(AUTH_TIMEOUT, timeout);
    if auth.None? || auth.value > 0xFFFF_FFFF { return None; }
    var alpn := cbs.OptionalOctets(EARLY_ALPN);
    if alpn.None? { return None; }
    var ageAdd := if age.value.Some? then Some(BigEndian(age.value.value)) else None;
    return Some(Limits(ageAdd, isServer.value, sigalg.value, early.value, auth.value, Stowed(alpn.value)));
  }

  /** The certificates of the stack: the leaf, and elements until the field is used up. */
  method ReadChain(field: seq<Byte>) returns (r: Option<seq<seq<Byte>>>)
    ensures r == ParseChain(field)
  {
    hide GetAny;
    var cbs := new Cbs(field);
    var certs: seq<seq<Byte>> := [];
    while cbs.data != []
      invariant fresh(cbs)
      invariant ParseChain(field).Some? <==> ParseChain(cbs.data).Some?
      invariant ParseChain(field).Some? ==> ParseChain(field).value == certs + ParseChain(cbs.data).value
      decreases |cbs.data|
    {
      ChainStep(cbs.data);
      GetAnySuffix(cbs.data);
      var cert := cbs.Element();
      if cert.None? { return None; }
      certs := certs + [cert.value];
    }
    ChainStep([]);
    assert certs + [] == certs;
    return Some(certs);
  }

  /** SSL_SESSION_parse. */
  method SessionParse(cbs: Cbs, known: nat -> bool) returns (r: Option<Session>)
    modifies cbs
    ensures var e := Parse(old(cbs.data), known);
      r.Some? == e.Some? && (e.Some? ==> r == Some(e.value.value) && cbs.data == e.value.rest)
  {
    hide GetAsn1, GetOptional, ParseHead, ParseTicketing, ParseEvidence, ParseLimits, ParseChain;
    var whole := cbs.Asn1(SEQUENCE);
    if whole.None? { return None; }
    var session := new Cbs(whole.value);
    var head := ReadHead(session, known);
    if head.None? { return None; }
    var peer := session.OptionalElement(PEER);
    if peer.None? || peer.value == Some([]) { return None; }
    var ticketing := ReadTicketing(session);
    if ticketing.None? { return None; }
    var evidence := ReadEvidence(session);
    if evidence.None? { return None; }
    var chain := session.OptionalElement(CERT_CHAIN);
    if chain.None? || chain.value == Some([]) || (chain.value.Some? && peer.value.None?) { return None; }
    var certs := if peer.value.Some? then [peer.value.value] else [];
    var others := ReadChain(OrEmpty(chain.value));
    if others.None? { return None; }
    certs := certs + others.value;
    var limits := ReadLimits(session, head.value.timeout);
    if limits.None? || session.data != [] { return None; }
    return Some(Session(head.value, ticketing.value, evidence.value, certs, limits.value));
  }
}
