/**
  A client and a server of TLS 1.2 or below joined by two reliable queues, under agreed
  negotiation and succeeding cryptography. Both follow one script of slots, each empty
  or holding one record, fixed by the scenario; every reachable state is a pair of
  positions in the script, with exactly the records between them in flight.
 */
module TlsPair {
  import opened Options
  import opened TlsMessages
  import C = TlsClient
  import S = TlsServer

  /** Everything the two endpoints do not decide themselves. */
  datatype Scenario = Scenario(
    clientCfg: C.Config,
    offered: Option<Session>,  // the session the client brings
    clientId: nat,             // session id of a client without one, and of a renewed session
    premaster: nat,
    serverCfg: S.Config,
    choice: S.Choice,
    serverId: nat,             // session id of a new session; 0 for none
    emptyTicket: bool)

  predicate Resuming(k: Scenario) {
    k.choice.session.Some?
  }

  function HelloId(k: Scenario): nat {
    if k.offered.Some? && k.offered.value.id != 0 then k.offered.value.id else k.clientId
  }

  function Cipher(k: Scenario): Cipher {
    k.choice.cipher
  }

  function RequestsCertificate(k: Scenario): bool {
    !Resuming(k) && S.RequestsCertificate(k.serverCfg, Cipher(k), k.choice.channelId)
  }

  function Agreed(k: Scenario): Extensions {
    Extensions(
      k.serverCfg.ocsp && !Resuming(k) && Cipher(k).UsesCertificate(),
      if Resuming(k) then k.choice.renewTicket else k.choice.tickets,
      k.choice.nextProto && !k.choice.alpn && k.choice.advertises,
      S.KeepsChannelId(Cipher(k), k.choice.session, k.choice.channelId))
  }

  function SendsParams(k: Scenario): bool {
    Cipher(k).UsesEcdhe() || (Cipher(k).UsesPsk() && k.serverCfg.pskHint)
  }

  /** The scenarios in which the handshake must succeed. A resumed session is known alike
      to both sides; a new session id is none the client sent; a client that is required
      to have a certificate has one. */
  predicate Honest(k: Scenario) {
    && !k.clientCfg.dtls && !k.clientCfg.earlyData && !k.choice.tls13
    && (match k.choice.session
        case Some(session) =>
          && k.offered.Some? && k.offered.value.id == session.id != 0
          && k.offered.value.master == session.master && k.offered.value.cipher == Cipher(k)
        case None => k.serverId == 0 || k.serverId != HelloId(k))
    && (RequestsCertificate(k) && k.serverCfg.failIfNoPeerCert ==> k.clientCfg.certs > 0)
  }

  // ------------------------------------------------------------------ the script

  function Length(k: Scenario): nat {
    if Resuming(k) then 9 else 17
  }

  predicate FromClient(k: Scenario, i: nat) {
    i == 0 || if Resuming(k) then i >= 5 else 7 <= i <= 13
  }

  function When(present: bool, m: Message): Option<Item> {
    if present then Some(Handshake(m)) else None
  }

  /** The record of slot i. */
  function Slot(k: Scenario, i: nat): Option<Item>
    decreases i
  {
    var e := Agreed(k);
    if Resuming(k) then
      match i
      case 0 => Some(Handshake(ClientHello(HelloId(k))))
      case 1 => Some(Handshake(ServerHello(false, k.choice.session.value.id, Cipher(k), e)))
      case 2 => When(e.ticket, NewSessionTicket(k.emptyTicket))
      case 3 => Some(ChangeCipherSpec)
      case 4 => Some(Handshake(Finished(Mac(Transcript(k, 4), true, k.choice.session.value.master))))
      case 5 => Some(ChangeCipherSpec)
      case 6 => When(e.nextProto, NextProto)
      case 7 => When(e.channelId, ChannelId)
      case 8 => Some(Handshake(Finished(Mac(Transcript(k, 8), false, k.choice.session.value.master))))
      case _ => None
    else
      match i
      case 0 => Some(Handshake(ClientHello(HelloId(k))))
      case 1 => Some(Handshake(ServerHello(false, k.serverId, Cipher(k), e)))
      case 2 => When(Cipher(k).UsesCertificate(), Certificate(1))
      case 3 => When(e.status, CertificateStatus)
      case 4 => When(SendsParams(k), ServerKeyExchange)
      case 5 => When(RequestsCertificate(k), CertificateRequest)
      case 6 => Some(Handshake(ServerHelloDone))
      case 7 => When(RequestsCertificate(k), Certificate(k.clientCfg.certs))
      case 8 => Some(Handshake(ClientKeyExchange(k.premaster)))
      case 9 => When(RequestsCertificate(k) && k.clientCfg.certs > 0, CertificateVerify)
      case 10 => Some(ChangeCipherSpec)
      case 11 => When(e.nextProto, NextProto)
      case 12 => When(e.channelId, ChannelId)
      case 13 => Some(Handshake(Finished(Mac(Transcript(k, 13), false, Derived(k.premaster, Transcript(k, 9))))))
      case 14 => When(e.ticket, NewSessionTicket(k.emptyTicket))
      case 15 => Some(ChangeCipherSpec)
      case 16 => Some(Handshake(Finished(Mac(Transcript(k, 16), true, Derived(k.premaster, Transcript(k, 9))))))
      case _ => None
  }

  /** The handshake messages of the slots before p. */
  function Transcript(k: Scenario, p: nat): seq<Message>
    decreases p, 0
  {
    if p == 0 then []
    else
      var item := Slot(k, p - 1);
      Transcript(k, p - 1) + (if item.Some? && item.value.Handshake? then [item.value.message] else [])
  }

  /** The records of one direction in the slots from a up to b. */
  function Records(k: Scenario, fromClient: bool, a: nat, b: nat): seq<Item>
    decreases b - a
  {
    if a >= b then []
    else (if FromClient(k, a) == fromClient && Slot(k, a).Some? then [Slot(k, a).value] else []) + Records(k, fromClient, a + 1, b)
  }

  /** The first slot from p on that holds a record. */
  function NextSlot(k: Scenario, p: nat): (i: nat)
    ensures p <= Length(k) ==> p <= i <= Length(k)
    ensures i < Length(k) ==> Slot(k, i).Some?
    decreases Length(k) - p
  {
    if p >= Length(k) || Slot(k, p).Some? then p else NextSlot(k, p + 1)
  }

  /** The next record of the script is of the given side. */
  predicate NextIsFrom(k: Scenario, p: nat, client: bool) {
    NextSlot(k, p) < Length(k) && FromClient(k, NextSlot(k, p)) == client
  }

  /** ... and a handshake message. */
  predicate NextIsMessage(k: Scenario, p: nat, client: bool) {
    NextIsFrom(k, p, client) && Slot(k, NextSlot(k, p)).value.Handshake?
  }

  lemma {:induction false} RecordsSplit(k: Scenario, d: bool, a: nat, b: nat, c: nat)
    requires a <= b <= c
    ensures Records(k, d, a, c) == Records(k, d, a, b) + Records(k, d, b, c)
    decreases b - a
  {
    hide Slot;
    if a < b { RecordsSplit(k, d, a + 1, b, c); }
  }

  // ------------------------------------------------------------------ in flight

  /** The records of direction d that a sender at sp has queued and a receiver at rp has
      not consumed. A receiver may be ahead only over empty slots. */
  ghost predicate InFlight(k: Scenario, d: bool, inbox: seq<Item>, pending: seq<Item>, rp: nat, sp: nat) {
    if rp <= sp then inbox + pending == Records(k, d, rp, sp)
    else inbox == [] && pending == [] && Records(k, d, sp, rp) == []
  }

  lemma SenderMoves(k: Scenario, d: bool, inbox: seq<Item>, pending: seq<Item>, rp: nat, sp: nat, sp': nat)
    requires InFlight(k, d, inbox, pending, rp, sp) && sp <= sp'
    ensures InFlight(k, d, inbox, pending + Records(k, d, sp, sp'), rp, sp')
  {
    hide Records;
    var more := Records(k, d, sp, sp');
    if rp <= sp {
      RecordsSplit(k, d, rp, sp, sp');
      assert inbox + (pending + more) == (inbox + pending) + more;
    } else if rp <= sp' {
      RecordsSplit(k, d, sp, rp, sp');
      assert [] + ([] + more) == more && [] + Records(k, d, rp, sp') == Records(k, d, rp, sp');
    } else {
      RecordsSplit(k, d, sp, sp', rp);
    }
  }

  lemma ReceiverMoves(k: Scenario, d: bool, inbox: seq<Item>, inbox': seq<Item>, pending: seq<Item>, rp: nat, rp': nat, sp: nat)
    requires InFlight(k, d, inbox, pending, rp, sp) && rp <= rp'
    requires inbox == Records(k, d, rp, rp') + inbox'
    requires Records(k, d, rp, rp') != [] ==> rp' == rp + 1
    ensures InFlight(k, d, inbox', pending, rp', sp)
  {
    hide Records;
    var taken := Records(k, d, rp, rp');
    if rp' <= sp {
      RecordsSplit(k, d, rp, rp', sp);
      assert taken + (inbox' + pending) == taken + Records(k, d, rp', sp) by { assert inbox + pending == taken + (inbox' + pending); }
      assert inbox' + pending == Records(k, d, rp', sp) by { DropPrefix(taken, inbox' + pending, Records(k, d, rp', sp)); }
    } else if rp <= sp {
      RecordsSplit(k, d, rp, sp, rp');
      if taken != [] {
        assert sp == rp;
        assert Records(k, d, rp, sp) == [] by { RecordsEmpty(k, d, rp); }
      }
    } else {
      RecordsSplit(k, d, sp, rp, rp');
    }
  }

  lemma DropPrefix(a: seq<Item>, b: seq<Item>, c: seq<Item>)
    requires a + b == a + c
    ensures b == c
  {
    assert b == (a + b)[|a|..];
    assert c == (a + c)[|a|..];
  }

  lemma RecordsEmpty(k: Scenario, d: bool, a: nat)
    ensures Records(k, d, a, a) == []
  {
  }

  /** The next record to read is the first one the script still has for the reader. */
  lemma FirstInFlight(k: Scenario, d: bool, inbox: seq<Item>, pending: seq<Item>, rp: nat, sp: nat)
    requires InFlight(k, d, inbox, pending, rp, sp) && inbox != [] && sp <= Length(k)
    ensures Records(k, d, rp, Length(k)) != [] && inbox[0] == Records(k, d, rp, Length(k))[0]
  {
    hide Records;
    RecordsSplit(k, d, rp, sp, Length(k));
    assert (inbox + pending)[0] == inbox[0];
  }

  // ------------------------------------------------------------------ the client alone

  function ClientOracle(k: Scenario): C.Oracle {
    C.Oracle(true, false, VerifyOk, true, k.clientId, k.premaster)
  }

  /** The slot the client handles next. */
  function ClientPos(k: Scenario, c: C.Client): nat {
    if Resuming(k) then
      match c.state
      case StartConnect => 0
      case EnterEarlyData => 1
      case ReadServerHello => 1
      case ReadSessionTicket => 2
      case ProcessChangeCipherSpec => if c.wait.ReadChangeCipherSpec? then 3 else 4
      case ReadServerFinished => 4
      case SendClientFinished => 5
      case _ => 9
    else
      match c.state
      case StartConnect => 0
      case EnterEarlyData => 1
      case ReadServerHello => 1
      case ReadServerCertificate => 2
      case ReadCertificateStatus => 3
      case VerifyServerCertificate => 4
      case ReadServerKeyExchange => 4
      case ReadCertificateRequest => 5
      case ReadServerHelloDone => 6
      case SendClientCertificate => 7
      case SendClientKeyExchange => 8
      case SendClientCertificateVerify => 9
      case SendClientFinished => 10
      case FinishFlight => 14
      case ReadSessionTicket => 14
      case ProcessChangeCipherSpec => if c.wait.ReadChangeCipherSpec? then 15 else 16
      case ReadServerFinished => 16
      case _ => 17
  }

  predicate ClientState(k: Scenario, s: C.State) {
    && !s.Tls13? && !s.ReadHelloVerifyRequest?
    && (Resuming(k) ==> !C.BeforeKeyExchange(s) && !s.SendClientCertificateVerify?)
  }

  predicate ClientWait(k: Scenario, c: C.Client) {
    match c.wait
    case Ok => true
    case Flush => c.state.EnterEarlyData? || c.state.FinishFlight?
    case ReadMessage => NextIsMessage(k, ClientPos(k, c), false)
    case ReadChangeCipherSpec => c.state.ProcessChangeCipherSpec?
    case Retry => !c.state.ProcessChangeCipherSpec?
    case EarlyReturn => c.state.ReadSessionTicket?
    case Error => false
  }

  /** The states in which the client has unflushed records. */
  predicate ClientHolds(c: C.Client) {
    c.wait.Flush? || c.state.SendClientKeyExchange? || c.state.SendClientCertificateVerify? || c.state.SendClientFinished?
  }

  predicate TicketRead(k: Scenario, s: C.State) {
    || s.ProcessChangeCipherSpec? || s.ReadServerFinished? || s.FinishClientHandshake? || s.Done?
    || (Resuming(k) && (s.SendClientFinished? || s.FinishFlight?))
  }

  /** Until it reads the ServerHello, the client knows its own side of the scenario;
      then also what was negotiated. */
  ghost predicate ClientKnows(k: Scenario, c: C.Client) {
    && c.cfg == k.clientCfg && !c.neg.tls13
    && if C.Undecided(c.state) then
         c.session == k.offered && (c.state.StartConnect? || c.sessionId == HelloId(k))
       else
         && c.session.Some? == Resuming(k)
         && c.neg.cipher == Cipher(k)
         && c.neg.extensions.(ticket := Agreed(k).ticket) == Agreed(k)
         && (TicketRead(k, c.state) || c.neg.extensions.ticket == Agreed(k).ticket)
         && c.neg.certRequest == (RequestsCertificate(k) && ClientPos(k, c) >= 6)
         && c.master == (if Resuming(k) then k.choice.session.value.master
                         else if ClientPos(k, c) >= 9 then Derived(k.premaster, Transcript(k, 9)) else NoMaster)
  }

  ghost predicate ClientLocal(k: Scenario, c: C.Client) {
    && ClientState(k, c.state) && ClientWait(k, c) && ClientKnows(k, c)
    && c.wire.transcript == Transcript(k, ClientPos(k, c))
    && (ClientHolds(c) || c.wire.pending == [])
  }

  /** The first record in the inbox, if any, is the one the script has next. */
  ghost predicate InboxAgrees(k: Scenario, d: bool, inbox: seq<Item>, p: nat) {
    inbox != [] ==> Records(k, d, p, Length(k)) != [] && inbox[0] == Records(k, d, p, Length(k))[0]
  }

  /** The records and messages one round adds and takes. */
  ghost predicate Moves(k: Scenario, client: bool, w: Wire, w': Wire, p: nat, p': nat) {
    && p <= p' <= Length(k)
    && w'.pending == w.pending + Records(k, client, p, p')
    && w.inbox == Records(k, !client, p, p') + w'.inbox
    && (Records(k, !client, p, p') != [] ==> p' == p + 1)
  }

  /** All there is to know about slot i. */
  lemma SlotFacts(k: Scenario, i: nat)
    requires i < Length(k)
    ensures Records(k, true, i, i) == [] && Records(k, false, i, i) == []
    ensures Records(k, true, i, i + 1) == if FromClient(k, i) && Slot(k, i).Some? then [Slot(k, i).value] else []
    ensures Records(k, false, i, i + 1) == if !FromClient(k, i) && Slot(k, i).Some? then [Slot(k, i).value] else []
    ensures Records(k, true, i, Length(k)) == Records(k, true, i, i + 1) + Records(k, true, i + 1, Length(k))
    ensures Records(k, false, i, Length(k)) == Records(k, false, i, i + 1) + Records(k, false, i + 1, Length(k))
    ensures Transcript(k, i + 1) == Transcript(k, i) +
              (if Slot(k, i).Some? && Slot(k, i).value.Handshake? then [Slot(k, i).value.message] else [])
    ensures NextSlot(k, i) == if Slot(k, i).Some? then i else NextSlot(k, i + 1)
  {
    hide Slot;
    RecordsSplit(k, true, i, i + 1, Length(k));
    RecordsSplit(k, false, i, i + 1, Length(k));
  }

  ghost predicate ClientReady(k: Scenario, e: C.Client) {
    Honest(k) && ClientLocal(k, e) && e.wait.Ok? && InboxAgrees(k, false, e.wire.inbox, ClientPos(k, e))
  }

  ghost predicate ClientAdvances(k: Scenario, e: C.Client, e': C.Client) {
    ClientLocal(k, e') && Moves(k, true, e.wire, e'.wire, ClientPos(k, e), ClientPos(k, e'))
  }

  /** Four slots that belong to the client. */
  lemma Span4(k: Scenario, i: nat)
    requires i + 4 <= Length(k) && FromClient(k, i) && FromClient(k, i + 1) && FromClient(k, i + 2) && FromClient(k, i + 3)
    ensures Records(k, false, i, i + 4) == []
    ensures Records(k, true, i, i + 4)
         == Present(k, i) + Present(k, i + 1) + Present(k, i + 2) + Present(k, i + 3)
    ensures Transcript(k, i + 4) == Transcript(k, i + 3) + Said(k, i + 3)
    ensures Transcript(k, i + 3) == Transcript(k, i) + Said(k, i) + Said(k, i + 1) + Said(k, i + 2)
  {
    hide Records, Transcript, NextSlot, Slot;
    SlotFacts(k, i); SlotFacts(k, i + 1); SlotFacts(k, i + 2); SlotFacts(k, i + 3);
    RecordsSplit(k, true, i, i + 1, i + 2); RecordsSplit(k, true, i, i + 2, i + 3); RecordsSplit(k, true, i, i + 3, i + 4);
    RecordsSplit(k, false, i, i + 1, i + 2); RecordsSplit(k, false, i, i + 2, i + 3); RecordsSplit(k, false, i, i + 3, i + 4);
  }

  lemma RequestFacts(k: Scenario)
    ensures RequestsCertificate(k) ==> !Resuming(k) && Cipher(k).UsesCertificate()
  {
  }

  function Present(k: Scenario, i: nat): seq<Item> {
    if Slot(k, i).Some? then [Slot(k, i).value] else []
  }

  function Said(k: Scenario, i: nat): seq<Message> {
    if Slot(k, i).Some? && Slot(k, i).value.Handshake? then [Slot(k, i).value.message] else []
  }

  lemma ClientStarts(k: Scenario, e: C.Client)
    requires ClientReady(k, e) && e.state.StartConnect?
    ensures ClientAdvances(k, e, C.DoStartConnect(e, ClientOracle(k)))
  {
    hide Records, Transcript, NextSlot, Agreed, RequestsCertificate, SendsParams;
    SlotFacts(k, 0);
    TranscriptStart(k);
  }

  lemma ClientSkipsEarlyData(k: Scenario, e: C.Client)
    requires ClientReady(k, e) && e.state.EnterEarlyData?
    ensures ClientAdvances(k, e, C.DoEnterEarlyData(e, ClientOracle(k)))
  {
    hide Records, Transcript, NextSlot, HelloId, Agreed, RequestsCertificate, SendsParams;
    SlotFacts(k, 1);
  }

  lemma ServerHelloSlot(k: Scenario)
    ensures var id := if Resuming(k) then k.choice.session.value.id else k.serverId;
      Slot(k, 1) == Some(Handshake(ServerHello(false, id, Cipher(k), Agreed(k))))
    ensures !FromClient(k, 1) && (Agreed(k).status ==> Cipher(k).UsesCertificate() && !Resuming(k))
  {
    hide Transcript;
  }

  /** What the client knows once it has accepted the ServerHello of a full handshake. */
  lemma KnowsHello(k: Scenario, e: C.Client)
    requires !Resuming(k) && e.cfg == k.clientCfg && e.session.None? && e.master.NoMaster? && e.state.ReadServerCertificate?
    requires e.neg == C.Negotiated(false, Cipher(k), Agreed(k), false)
    ensures ClientKnows(k, e)
  {
    hide Transcript, Agreed, RequestsCertificate;
  }

  lemma ClientReadsServerHello(k: Scenario, e: C.Client)
    requires ClientReady(k, e) && e.state.ReadServerHello? && !Resuming(k)
    ensures ClientAdvances(k, e, C.DoReadServerHello(e, ClientOracle(k)))
  {
    hide ClientKnows, Records, Transcript, NextSlot, RequestsCertificate, SendsParams, Slot, FromClient, Agreed;
    assert e.cfg == k.clientCfg && e.session == k.offered && e.sessionId == HelloId(k) by { KnowsSession(k, e); }
    ServerHelloSlot(k);
    SlotFacts(k, 1);
    var e' := C.DoReadServerHello(e, ClientOracle(k));
    if e'.state.ReadServerCertificate? { KnowsHello(k, e'); } else { SameClientKnows(k, e, e'); }
  }

  lemma KnowsSession(k: Scenario, e: C.Client)
    requires ClientKnows(k, e) && e.state.ReadServerHello?
    ensures e.cfg == k.clientCfg && e.session == k.offered && e.sessionId == HelloId(k)
  {
  }

  lemma ClientReadsServerHelloResuming(k: Scenario, e: C.Client)
    requires ClientReady(k, e) && e.state.ReadServerHello? && Resuming(k)
    ensures ClientAdvances(k, e, C.DoReadServerHello(e, ClientOracle(k)))
  {
    hide Records, Transcript, NextSlot, RequestsCertificate, SendsParams, Slot, FromClient, Agreed;
    ServerHelloSlot(k);
    SlotFacts(k, 1);
  }

  lemma ClientReadsCertificate(k: Scenario, e: C.Client)
    requires ClientReady(k, e) && e.state.ReadServerCertificate? && !Resuming(k)
    ensures ClientAdvances(k, e, C.DoReadServerCertificate(e, ClientOracle(k)))
  {
    hide Records, Transcript, NextSlot, HelloId, Agreed, RequestsCertificate, SendsParams, Slot, Honest;
    FlightSlots(k);
    SlotFacts(k, 2);
  }

  lemma ClientReadsStatus(k: Scenario, e: C.Client)
    requires ClientReady(k, e) && e.state.ReadCertificateStatus? && !Resuming(k)
    ensures ClientAdvances(k, e, C.DoReadCertificateStatus(e, ClientOracle(k)))
  {
    hide Records, Transcript, NextSlot, HelloId, RequestsCertificate, SendsParams;
    SlotFacts(k, 3);
  }

  lemma ClientVerifies(k: Scenario, e: C.Client)
    requires ClientReady(k, e) && e.state.VerifyServerCertificate? && !Resuming(k)
    ensures ClientAdvances(k, e, C.DoVerifyServerCertificate(e, ClientOracle(k)))
  {
    hide Records, Transcript, NextSlot, HelloId, Agreed, RequestsCertificate, SendsParams;
    SlotFacts(k, 4);
  }

  /** The optional slots of the server's flight. */
  lemma FlightSlots(k: Scenario)
    requires !Resuming(k)
    ensures Slot(k, 2) == When(Cipher(k).UsesCertificate(), Certificate(1)) && Slot(k, 3) == When(Agreed(k).status, CertificateStatus)
    ensures Slot(k, 4) == When(SendsParams(k), ServerKeyExchange) && Slot(k, 5) == When(RequestsCertificate(k), CertificateRequest)
    ensures Slot(k, 6) == Some(Handshake(ServerHelloDone))
  {
  }

  lemma ClientReadsKeyExchange(k: Scenario, e: C.Client)
    requires ClientReady(k, e) && e.state.ReadServerKeyExchange? && !Resuming(k)
    ensures ClientAdvances(k, e, C.DoReadServerKeyExchange(e, ClientOracle(k)))
  {
    hide ClientAdvances, C.DoReadServerKeyExchange, Records, Transcript, NextSlot;
    if e.wire.Next().None? { ClientAwaitsKeyExchange(k, e); } else { ClientTakesKeyExchange(k, e); }
  }

  lemma ClientAwaitsKeyExchange(k: Scenario, e: C.Client)
    requires ClientReady(k, e) && e.state.ReadServerKeyExchange? && !Resuming(k) && e.wire.Next().None?
    ensures ClientAdvances(k, e, C.DoReadServerKeyExchange(e, ClientOracle(k)))
  {
    hide Records, Transcript, NextSlot, HelloId, Agreed, RequestsCertificate, Slot, Honest;
    FlightSlots(k);
    SlotFacts(k, 4);
    if Slot(k, 4).None? {
      SlotFacts(k, 5);
      if Slot(k, 5).None? { SlotFacts(k, 6); }
    }
  }

  lemma ClientTakesKeyExchange(k: Scenario, e: C.Client)
    requires ClientReady(k, e) && e.state.ReadServerKeyExchange? && !Resuming(k) && e.wire.Next().Some?
    ensures ClientAdvances(k, e, C.DoReadServerKeyExchange(e, ClientOracle(k)))
  {
    hide Records, Transcript, NextSlot, HelloId, Agreed, RequestsCertificate, Slot, Honest;
    FlightSlots(k);
    SlotFacts(k, 4);
    if Slot(k, 4).None? {
      SlotFacts(k, 5);
      if Slot(k, 5).None? { SlotFacts(k, 6); }
    }
  }

  lemma ClientReadsRequest(k: Scenario, e: C.Client)
    requires ClientReady(k, e) && e.state.ReadCertificateRequest? && !Resuming(k)
    ensures ClientAdvances(k, e, C.DoReadCertificateRequest(e, ClientOracle(k)))
  {
    hide ClientAdvances, C.DoReadCertificateRequest, Records, Transcript, NextSlot;
    if e.wire.Next().None? { ClientAwaitsRequest(k, e); } else { ClientTakesRequest(k, e); }
  }

  lemma ClientAwaitsRequest(k: Scenario, e: C.Client)
    requires ClientReady(k, e) && e.state.ReadCertificateRequest? && !Resuming(k) && e.wire.Next().None?
    ensures ClientAdvances(k, e, C.DoReadCertificateRequest(e, ClientOracle(k)))
  {
    hide Records, Transcript, NextSlot, HelloId, Agreed, RequestsCertificate, SendsParams, Slot;
    FlightSlots(k);
    RequestFacts(k);
    SlotFacts(k, 5);
    SlotFacts(k, 6);
  }

  lemma ClientTakesRequest(k: Scenario, e: C.Client)
    requires ClientReady(k, e) && e.state.ReadCertificateRequest? && !Resuming(k) && e.wire.Next().Some?
    ensures ClientAdvances(k, e, C.DoReadCertificateRequest(e, ClientOracle(k)))
  {
    hide Records, Transcript, NextSlot, HelloId, Agreed, RequestsCertificate, SendsParams, Slot;
    FlightSlots(k);
    RequestFacts(k);
    SlotFacts(k, 5);
    if Slot(k, 5).None? { SlotFacts(k, 6); }
  }

  lemma ClientReadsHelloDone(k: Scenario, e: C.Client)
    requires ClientReady(k, e) && e.state.ReadServerHelloDone? && !Resuming(k)
    ensures ClientAdvances(k, e, C.DoReadServerHelloDone(e, ClientOracle(k)))
  {
    hide Records, Transcript, NextSlot, HelloId, Agreed, RequestsCertificate, SendsParams;
    SlotFacts(k, 6);
  }

  lemma ClientSendsCertificate(k: Scenario, e: C.Client)
    requires ClientReady(k, e) && e.state.SendClientCertificate? && !Resuming(k)
    ensures ClientAdvances(k, e, C.DoSendClientCertificate(e, ClientOracle(k)))
  {
    hide Records, Transcript, NextSlot, HelloId, Agreed, RequestsCertificate, SendsParams;
    SlotFacts(k, 7);
  }

  lemma ClientSendsKeyExchange(k: Scenario, e: C.Client)
    requires ClientReady(k, e) && e.state.SendClientKeyExchange? && !Resuming(k)
    ensures ClientAdvances(k, e, C.DoSendClientKeyExchange(e, ClientOracle(k)))
  {
    hide Records, Transcript, NextSlot, HelloId, Agreed, RequestsCertificate, SendsParams;
    SlotFacts(k, 8);
  }

  lemma ClientSendsVerify(k: Scenario, e: C.Client)
    requires ClientReady(k, e) && e.state.SendClientCertificateVerify? && !Resuming(k)
    ensures ClientAdvances(k, e, C.DoSendClientCertificateVerify(e, ClientOracle(k)))
  {
    hide Records, Transcript, NextSlot, HelloId, Agreed, RequestsCertificate, SendsParams;
    SlotFacts(k, 9);
  }

  lemma ClientSendsFinished(k: Scenario, e: C.Client)
    requires ClientReady(k, e) && e.state.SendClientFinished? && !Resuming(k)
    ensures ClientAdvances(k, e, C.DoSendClientFinished(e, ClientOracle(k)))
  {
    hide Records, Transcript, NextSlot, HelloId, Honest, Slot, Agreed, RequestsCertificate;
    CipherSlot(k, 10);
    ExtensionSlots(k);
    FinishedSlots(k);
    var i := 10;
    Span4(k, i);
    assert e.wire.pending + Records(k, true, i, i + 4)
        == e.wire.pending + Present(k, i) + Present(k, i + 1) + Present(k, i + 2) + Present(k, i + 3);
    assert Said(k, i) == [] && Present(k, i) == [ChangeCipherSpec];
    assert Present(k, i + 1) == (if e.neg.extensions.nextProto then [Handshake(NextProto)] else []);
    assert Present(k, i + 2) == (if e.neg.extensions.channelId then [Handshake(ChannelId)] else []);
    var said := e.wire.transcript + (if e.neg.extensions.nextProto then [NextProto] else []);
    assert e.neg.extensions.nextProto || said == e.wire.transcript;
    assert Transcript(k, i + 3) == said + (if e.neg.extensions.channelId then [ChannelId] else []);
    assert e.neg.extensions.channelId || Transcript(k, i + 3) == said;
    var sent := e.wire.pending + Present(k, i) + Present(k, i + 1);
    assert e.neg.extensions.nextProto || sent == e.wire.pending + [ChangeCipherSpec];
    assert e.neg.extensions.channelId || sent + Present(k, i + 2) == sent;
    assert Present(k, i + 3) == [Handshake(Finished(Mac(Transcript(k, i + 3), false, e.master)))];
  }

  lemma ClientSendsFinishedResuming(k: Scenario, e: C.Client)
    requires ClientReady(k, e) && e.state.SendClientFinished? && Resuming(k)
    ensures ClientAdvances(k, e, C.DoSendClientFinished(e, ClientOracle(k)))
  {
    hide Records, Transcript, NextSlot, HelloId, Honest, Slot, Agreed, RequestsCertificate;
    RequestFacts(k);
    CipherSlot(k, 5);
    ExtensionSlots(k);
    FinishedSlots(k);
    var i := 5;
    Span4(k, i);
    assert e.wire.pending + Records(k, true, i, i + 4)
        == e.wire.pending + Present(k, i) + Present(k, i + 1) + Present(k, i + 2) + Present(k, i + 3);
    assert Said(k, i) == [] && Present(k, i) == [ChangeCipherSpec];
    assert Present(k, i + 1) == (if e.neg.extensions.nextProto then [Handshake(NextProto)] else []);
    assert Present(k, i + 2) == (if e.neg.extensions.channelId then [Handshake(ChannelId)] else []);
    var said := e.wire.transcript + (if e.neg.extensions.nextProto then [NextProto] else []);
    assert e.neg.extensions.nextProto || said == e.wire.transcript;
    assert Transcript(k, i + 3) == said + (if e.neg.extensions.channelId then [ChannelId] else []);
    assert e.neg.extensions.channelId || Transcript(k, i + 3) == said;
    var sent := e.wire.pending + Present(k, i) + Present(k, i + 1);
    assert e.neg.extensions.nextProto || sent == e.wire.pending + [ChangeCipherSpec];
    assert e.neg.extensions.channelId || sent + Present(k, i + 2) == sent;
    assert Present(k, i + 3) == [Handshake(Finished(Mac(Transcript(k, i + 3), false, e.master)))];
  }

  lemma ClientFinishesFlight(k: Scenario, e: C.Client)
    requires ClientReady(k, e) && e.state.FinishFlight?
    ensures ClientAdvances(k, e, C.DoFinishFlight(e, ClientOracle(k)))
  {
    hide Records, Transcript, NextSlot, HelloId, Agreed, RequestsCertificate, SendsParams;
    RecordsEmpty(k, true, ClientPos(k, e));
    RecordsEmpty(k, false, ClientPos(k, e));
  }

  lemma ClientFinishes(k: Scenario, e: C.Client)
    requires ClientReady(k, e) && e.state.FinishClientHandshake?
    ensures ClientAdvances(k, e, C.DoFinishClientHandshake(e, ClientOracle(k)))
  {
    hide Records, Transcript, NextSlot, HelloId, Agreed, RequestsCertificate, SendsParams;
    RecordsEmpty(k, true, ClientPos(k, e));
    RecordsEmpty(k, false, ClientPos(k, e));
  }

  /** Where the server's ticket stands in the script. */
  lemma TicketSlot(k: Scenario)
    ensures var i := if Resuming(k) then 2 else 14;
      Slot(k, i) == When(Agreed(k).ticket, NewSessionTicket(k.emptyTicket)) && !FromClient(k, i)
  {
    hide Transcript, Agreed;
  }

  /** Where the two Finished messages stand. */
  lemma FinishedSlots(k: Scenario)
    ensures var i := if Resuming(k) then 4 else 16;
      var master := if Resuming(k) then k.choice.session.value.master else Derived(k.premaster, Transcript(k, 9));
      Slot(k, i) == Some(Handshake(Finished(Mac(Transcript(k, i), true, master)))) && !FromClient(k, i)
    ensures var i := if Resuming(k) then 8 else 13;
      var master := if Resuming(k) then k.choice.session.value.master else Derived(k.premaster, Transcript(k, 9));
      Slot(k, i) == Some(Handshake(Finished(Mac(Transcript(k, i), false, master)))) && FromClient(k, i)
  {
    hide Transcript, Agreed;
  }

  /** What the client knows when it reads the ticket, and that it still does behind it. */
  lemma KnowsTicket(k: Scenario, e: C.Client)
    requires ClientReady(k, e) && e.state.ReadSessionTicket?
    ensures e.neg.extensions.ticket == Agreed(k).ticket
  {
    hide Records, Transcript, NextSlot, HelloId, Agreed, RequestsCertificate, SendsParams, Slot, FromClient, Honest;
  }

  lemma KnowsBehindTicket(k: Scenario, e: C.Client, e': C.Client)
    requires ClientKnows(k, e) && e.state.ReadSessionTicket? && e'.state.ProcessChangeCipherSpec?
    requires e'.session.Some? == e.session.Some? && e'.master == e.master && e'.cfg == e.cfg
    requires e'.neg == e.neg || e'.neg == e.neg.(extensions := e.neg.extensions.(ticket := false))
    ensures ClientKnows(k, e')
  {
    hide Transcript, HelloId, Agreed, RequestsCertificate, Honest;
  }

  lemma ClientReadsTicket(k: Scenario, e: C.Client)
    requires ClientReady(k, e) && e.state.ReadSessionTicket? && !Resuming(k)
    ensures ClientAdvances(k, e, C.DoReadSessionTicket(e, ClientOracle(k)))
  {
    hide ClientKnows, Records, Transcript, NextSlot, HelloId, Agreed, RequestsCertificate, SendsParams, Slot, FromClient, Honest;
    KnowsTicket(k, e);
    SlotFacts(k, 14);
    TicketSlot(k);
    var e' := C.DoReadSessionTicket(e, ClientOracle(k));
    if e'.state.ProcessChangeCipherSpec? { KnowsBehindTicket(k, e, e'); } else { SameClientKnows(k, e, e'); }
  }

  lemma ClientReadsTicketResuming(k: Scenario, e: C.Client)
    requires ClientReady(k, e) && e.state.ReadSessionTicket? && Resuming(k)
    ensures ClientAdvances(k, e, C.DoReadSessionTicket(e, ClientOracle(k)))
  {
    hide ClientKnows, Records, Transcript, NextSlot, HelloId, Agreed, RequestsCertificate, SendsParams, Slot, FromClient, Honest;
    KnowsTicket(k, e);
    SlotFacts(k, 2);
    TicketSlot(k);
    var e' := C.DoReadSessionTicket(e, ClientOracle(k));
    if e'.state.ProcessChangeCipherSpec? { KnowsBehindTicket(k, e, e'); } else { SameClientKnows(k, e, e'); }
  }

  lemma ClientChangesCipher(k: Scenario, e: C.Client)
    requires ClientReady(k, e) && e.state.ProcessChangeCipherSpec? && !Resuming(k)
    ensures ClientAdvances(k, e, C.DoProcessChangeCipherSpec(e, ClientOracle(k)))
  {
    hide Records, Transcript, NextSlot, HelloId, Agreed, RequestsCertificate, SendsParams;
    SlotFacts(k, 16);
  }

  lemma ClientChangesCipherResuming(k: Scenario, e: C.Client)
    requires ClientReady(k, e) && e.state.ProcessChangeCipherSpec? && Resuming(k)
    ensures ClientAdvances(k, e, C.DoProcessChangeCipherSpec(e, ClientOracle(k)))
  {
    hide Records, Transcript, NextSlot, HelloId, Agreed, RequestsCertificate, SendsParams;
    SlotFacts(k, 4);
  }

  lemma ClientReadsFinished(k: Scenario, e: C.Client)
    requires ClientReady(k, e) && e.state.ReadServerFinished? && !Resuming(k)
    ensures ClientAdvances(k, e, C.DoReadServerFinished(e, ClientOracle(k)))
  {
    hide Records, Transcript, NextSlot, HelloId, Agreed, RequestsCertificate, SendsParams, Slot, FromClient, Honest;
    SlotFacts(k, 16);
    FinishedSlots(k);
  }

  lemma ClientReadsFinishedResuming(k: Scenario, e: C.Client)
    requires ClientReady(k, e) && e.state.ReadServerFinished? && Resuming(k)
    ensures ClientAdvances(k, e, C.DoReadServerFinished(e, ClientOracle(k)))
  {
    hide Records, Transcript, NextSlot, HelloId, Agreed, RequestsCertificate, SendsParams, Slot, FromClient, Honest;
    SlotFacts(k, 4);
    FinishedSlots(k);
  }

  lemma TranscriptStart(k: Scenario)
    ensures Transcript(k, 0) == []
  {
  }

  // ------------------------------------------------------------------ the server alone

  function ServerOracle(k: Scenario): S.Oracle {
    S.Oracle(true, false, VerifyOk, k.choice, k.serverId, None, k.emptyTicket)
  }

  /** The slot the server handles next. */
  function ServerPos(k: Scenario, s: S.Server): nat {
    if Resuming(k) then
      match s.state
      case StartAccept => 0
      case ReadClientHello => 0
      case SelectCertificate => 0
      case SelectParameters => 0
      case SendServerHello => 1
      case SendServerFinished => 2
      case StartChangeCipherSpec => 5
      case ProcessChangeCipherSpec => if s.wait.ReadChangeCipherSpec? then 5 else 6
      case ReadNextProto => 6
      case ReadChannelId => 7
      case ReadClientFinished => 8
      case _ => 9
    else
      match s.state
      case StartAccept => 0
      case ReadClientHello => 0
      case SelectCertificate => 0
      case SelectParameters => 0
      case SendServerHello => 1
      case SendServerCertificate => 2
      case SendServerKeyExchange => 4
      case SendServerHelloDone => 5
      case ReadClientCertificate => 7
      case VerifyClientCertificate => 8
      case ReadClientKeyExchange => 8
      case ReadClientCertificateVerify => 9
      case StartChangeCipherSpec => 10
      case ProcessChangeCipherSpec => if s.wait.ReadChangeCipherSpec? then 10 else 11
      case ReadNextProto => 11
      case ReadChannelId => 12
      case ReadClientFinished => 13
      case SendServerFinished => 14
      case _ => 17
  }

  /** The states a full handshake passes and a resumption does not. */
  predicate OnlyFull(s: S.State) {
    || s.SendServerCertificate? || s.SendServerKeyExchange? || s.SendServerHelloDone? || s.ReadClientCertificate?
    || s.VerifyClientCertificate? || s.ReadClientKeyExchange? || s.ReadClientCertificateVerify?
  }

  predicate ServerState(k: Scenario, s: S.State) {
    !s.Tls13? && (Resuming(k) ==> !OnlyFull(s))
  }

  predicate ServerWait(k: Scenario, s: S.Server) {
    match s.wait
    case Ok => true
    case Flush =>
      || s.state.ReadClientCertificate?
      || s.state == if Resuming(k) then S.State.StartChangeCipherSpec else S.State.FinishServerHandshake
    case ReadMessage => NextIsMessage(k, ServerPos(k, s), true)
    case ReadChangeCipherSpec => s.state.ProcessChangeCipherSpec?
    case Retry => !s.state.ProcessChangeCipherSpec?
    case EarlyReturn => false
    case Error => false
  }

  /** The states in which the server has unflushed records. */
  predicate ServerHolds(s: S.Server) {
    || s.wait.Flush? || s.state.SendServerCertificate? || s.state.SendServerKeyExchange? || s.state.SendServerHelloDone?
    || s.state.SendServerFinished?
  }

  /** What the server has settled by each state. */
  ghost predicate ServerKnows(k: Scenario, s: S.Server) {
    && s.cfg == k.serverCfg && !s.neg.tls13
    && s.peerCerts == (if RequestsCertificate(k) && ServerPos(k, s) >= 8 then k.clientCfg.certs else 0)
    && match s.state {
         case StartAccept => true
         case ReadClientHello => true
         case SelectCertificate => Offered(k, s.neg.extensions)
         case SelectParameters => Offered(k, s.neg.extensions) && s.neg.cipher == Cipher(k)
         case _ =>
           && s.session == k.choice.session
           && s.neg.cipher == Cipher(k)
           && s.neg.certRequest == RequestsCertificate(k)
           && (if s.state.SendServerHello? then Selected(k, s.neg.extensions) else s.neg.extensions == Agreed(k))
           && (s.state.SendServerKeyExchange? ==> s.neg.params == SendsParams(k))
           && s.master == (if Resuming(k) then k.choice.session.value.master
                           else if ServerPos(k, s) >= 9 then Derived(k.premaster, Transcript(k, 9)) else NoMaster)
       }
  }

  predicate Offered(k: Scenario, e: Extensions) {
    e.nextProto == k.choice.nextProto && e.channelId == k.choice.channelId
  }

  predicate Selected(k: Scenario, e: Extensions) {
    && e.ticket == Agreed(k).ticket
    && e.nextProto == (k.choice.nextProto && !k.choice.alpn) && e.channelId == k.choice.channelId
  }

  ghost predicate ServerLocal(k: Scenario, s: S.Server) {
    && ServerState(k, s.state) && ServerWait(k, s) && ServerKnows(k, s)
    && s.wire.transcript == Transcript(k, ServerPos(k, s))
    && (ServerHolds(s) || s.wire.pending == [])
  }

  ghost predicate ServerReady(k: Scenario, e: S.Server) {
    Honest(k) && ServerLocal(k, e) && e.wait.Ok? && InboxAgrees(k, true, e.wire.inbox, ServerPos(k, e))
  }

  ghost predicate ServerAdvances(k: Scenario, e: S.Server, e': S.Server) {
    ServerLocal(k, e') && Moves(k, false, e.wire, e'.wire, ServerPos(k, e), ServerPos(k, e'))
  }

  lemma Span2(k: Scenario, i: nat)
    requires 0 < i && i + 2 <= Length(k) && !FromClient(k, i) && !FromClient(k, i + 1)
    ensures Records(k, true, i, i + 2) == [] && Records(k, false, i, i + 2) == Present(k, i) + Present(k, i + 1)
    ensures Transcript(k, i + 2) == Transcript(k, i) + Said(k, i) + Said(k, i + 1)
  {
    hide Records, Transcript, NextSlot, Slot;
    SlotFacts(k, i); SlotFacts(k, i + 1);
    RecordsSplit(k, true, i, i + 1, i + 2);
    RecordsSplit(k, false, i, i + 1, i + 2);
  }

  lemma Span3(k: Scenario, i: nat)
    requires 0 < i && i + 3 <= Length(k) && !FromClient(k, i) && !FromClient(k, i + 1) && !FromClient(k, i + 2)
    ensures Records(k, true, i, i + 3) == []
    ensures Records(k, false, i, i + 3) == Present(k, i) + Present(k, i + 1) + Present(k, i + 2)
    ensures Transcript(k, i + 3) == Transcript(k, i + 2) + Said(k, i + 2)
    ensures Transcript(k, i + 2) == Transcript(k, i) + Said(k, i) + Said(k, i + 1)
  {
    hide Records, Transcript, NextSlot, Slot;
    Span2(k, i); SlotFacts(k, i + 2);
    RecordsSplit(k, true, i, i + 2, i + 3);
    RecordsSplit(k, false, i, i + 2, i + 3);
  }

  lemma ServerStarts(k: Scenario, e: S.Server)
    requires ServerReady(k, e) && e.state.StartAccept?
    ensures ServerAdvances(k, e, S.DoStartAccept(e, ServerOracle(k)))
  {
    hide Records, Transcript, NextSlot, HelloId, Agreed, RequestsCertificate, SendsParams;
    SlotFacts(k, 0);
    TranscriptStart(k);
  }

  lemma ServerReadsHello(k: Scenario, e: S.Server)
    requires ServerReady(k, e) && e.state.ReadClientHello?
    ensures ServerAdvances(k, e, S.DoReadClientHello(e, ServerOracle(k)))
  {
    hide Records, Transcript, NextSlot, HelloId, Agreed, RequestsCertificate, SendsParams;
    SlotFacts(k, 0);
  }

  lemma ServerSelectsCertificate(k: Scenario, e: S.Server)
    requires ServerReady(k, e) && e.state.SelectCertificate?
    ensures ServerAdvances(k, e, S.DoSelectCertificate(e, ServerOracle(k)))
  {
    hide Records, Transcript, NextSlot, HelloId, Agreed, RequestsCertificate, SendsParams;
    SlotFacts(k, 0);
  }

  lemma FirstSlot(k: Scenario)
    ensures Slot(k, 0) == Some(Handshake(ClientHello(HelloId(k)))) && FromClient(k, 0)
  {
    hide Transcript, Agreed;
  }

  lemma ServerSelectsParameters(k: Scenario, e: S.Server)
    requires ServerReady(k, e) && e.state.SelectParameters? && !Resuming(k)
    ensures ServerAdvances(k, e, S.DoSelectParameters(e, ServerOracle(k)))
  {
    hide Records, Transcript, NextSlot, HelloId, SendsParams, Slot, FromClient;
    SlotFacts(k, 0);
    FirstSlot(k);
  }

  lemma ServerSelectsParametersResuming(k: Scenario, e: S.Server)
    requires ServerReady(k, e) && e.state.SelectParameters? && Resuming(k)
    ensures ServerAdvances(k, e, S.DoSelectParameters(e, ServerOracle(k)))
  {
    hide Records, Transcript, NextSlot, HelloId, SendsParams;
    SlotFacts(k, 0);
  }

  lemma ServerSendsHello(k: Scenario, e: S.Server)
    requires ServerReady(k, e) && e.state.SendServerHello? && !Resuming(k)
    ensures ServerAdvances(k, e, S.DoSendServerHello(e, ServerOracle(k)))
  {
    hide Records, Transcript, NextSlot, HelloId, RequestsCertificate;
    SlotFacts(k, 1);
  }

  lemma ServerSendsHelloResuming(k: Scenario, e: S.Server)
    requires ServerReady(k, e) && e.state.SendServerHello? && Resuming(k)
    ensures ServerAdvances(k, e, S.DoSendServerHello(e, ServerOracle(k)))
  {
    hide Records, Transcript, NextSlot, HelloId, RequestsCertificate;
    SlotFacts(k, 1);
  }

  lemma ServerSendsCertificate(k: Scenario, e: S.Server)
    requires ServerReady(k, e) && e.state.SendServerCertificate? && !Resuming(k)
    ensures ServerAdvances(k, e, S.DoSendServerCertificate(e, ServerOracle(k)))
  {
    hide Records, Transcript, NextSlot, HelloId, RequestsCertificate;
    Span2(k, 2);
  }

  lemma ServerSendsKeyExchange(k: Scenario, e: S.Server)
    requires ServerReady(k, e) && e.state.SendServerKeyExchange? && !Resuming(k)
    ensures ServerAdvances(k, e, S.DoSendServerKeyExchange(e, ServerOracle(k)))
  {
    hide Records, Transcript, NextSlot, HelloId, Agreed, RequestsCertificate, SendsParams;
    SlotFacts(k, 4);
  }

  lemma ServerSendsHelloDone(k: Scenario, e: S.Server)
    requires ServerReady(k, e) && e.state.SendServerHelloDone? && !Resuming(k)
    ensures ServerAdvances(k, e, S.DoSendServerHelloDone(e, ServerOracle(k)))
  {
    hide Records, Transcript, NextSlot, HelloId, Agreed, RequestsCertificate, SendsParams;
    Span2(k, 5);
  }

  lemma ServerReadsCertificate(k: Scenario, e: S.Server)
    requires ServerReady(k, e) && e.state.ReadClientCertificate? && !Resuming(k)
    ensures ServerAdvances(k, e, S.DoReadClientCertificate(e, ServerOracle(k)))
  {
    hide Records, Transcript, NextSlot, HelloId, Agreed, SendsParams;
    SlotFacts(k, 7);
  }

  lemma ServerVerifies(k: Scenario, e: S.Server)
    requires ServerReady(k, e) && e.state.VerifyClientCertificate? && !Resuming(k)
    ensures ServerAdvances(k, e, S.DoVerifyClientCertificate(e, ServerOracle(k)))
  {
    hide Records, Transcript, NextSlot, HelloId, Agreed, RequestsCertificate, SendsParams;
    SlotFacts(k, 8);
  }

  lemma ServerReadsKeyExchange(k: Scenario, e: S.Server)
    requires ServerReady(k, e) && e.state.ReadClientKeyExchange? && !Resuming(k)
    ensures ServerAdvances(k, e, S.DoReadClientKeyExchange(e, ServerOracle(k)))
  {
    hide Records, Transcript, NextSlot, HelloId, Agreed, RequestsCertificate, SendsParams;
    SlotFacts(k, 8);
  }

  lemma ServerReadsVerify(k: Scenario, e: S.Server)
    requires ServerReady(k, e) && e.state.ReadClientCertificateVerify? && !Resuming(k)
    ensures ServerAdvances(k, e, S.DoReadClientCertificateVerify(e, ServerOracle(k)))
  {
    hide Records, Transcript, NextSlot, HelloId, Agreed, RequestsCertificate, SendsParams;
    SlotFacts(k, 9);
  }

  lemma ServerStartsCipherChange(k: Scenario, e: S.Server)
    requires ServerReady(k, e) && e.state.StartChangeCipherSpec? && !Resuming(k)
    ensures ServerAdvances(k, e, S.DoStartChangeCipherSpec(e, ServerOracle(k)))
  {
    hide Records, Transcript, NextSlot, HelloId, Agreed, RequestsCertificate, SendsParams;
    SlotFacts(k, 10);
  }

  lemma ServerStartsCipherChangeResuming(k: Scenario, e: S.Server)
    requires ServerReady(k, e) && e.state.StartChangeCipherSpec? && Resuming(k)
    ensures ServerAdvances(k, e, S.DoStartChangeCipherSpec(e, ServerOracle(k)))
  {
    hide Records, Transcript, NextSlot, HelloId, Agreed, RequestsCertificate, SendsParams;
    SlotFacts(k, 5);
  }

  lemma ServerChangesCipher(k: Scenario, e: S.Server)
    requires ServerReady(k, e) && e.state.ProcessChangeCipherSpec? && !Resuming(k)
    ensures ServerAdvances(k, e, S.DoProcessChangeCipherSpec(e, ServerOracle(k)))
  {
    hide Records, Transcript, NextSlot, HelloId, Agreed, RequestsCertificate, SendsParams;
    SlotFacts(k, 11);
  }

  lemma ServerChangesCipherResuming(k: Scenario, e: S.Server)
    requires ServerReady(k, e) && e.state.ProcessChangeCipherSpec? && Resuming(k)
    ensures ServerAdvances(k, e, S.DoProcessChangeCipherSpec(e, ServerOracle(k)))
  {
    hide Records, Transcript, NextSlot, HelloId, Agreed, RequestsCertificate, SendsParams;
    SlotFacts(k, 6);
  }

  /** Where the client's optional messages stand. */
  lemma ExtensionSlots(k: Scenario)
    ensures var i := if Resuming(k) then 6 else 11;
      Slot(k, i) == When(Agreed(k).nextProto, NextProto) && FromClient(k, i) &&
      Slot(k, i + 1) == When(Agreed(k).channelId, ChannelId) && FromClient(k, i + 1)
  {
    hide Transcript, Agreed;
  }

  lemma ServerReadsNextProto(k: Scenario, e: S.Server)
    requires ServerReady(k, e) && e.state.ReadNextProto? && !Resuming(k)
    ensures ServerAdvances(k, e, S.DoReadNextProto(e, ServerOracle(k)))
  {
    hide Records, Transcript, NextSlot, HelloId, Agreed, RequestsCertificate, SendsParams, Slot, FromClient, Honest;
    ExtensionSlots(k);
    SlotFacts(k, 11);
  }

  lemma ServerReadsNextProtoResuming(k: Scenario, e: S.Server)
    requires ServerReady(k, e) && e.state.ReadNextProto? && Resuming(k)
    ensures ServerAdvances(k, e, S.DoReadNextProto(e, ServerOracle(k)))
  {
    hide Records, Transcript, NextSlot, HelloId, Agreed, RequestsCertificate, SendsParams, Slot, FromClient, Honest;
    ExtensionSlots(k);
    SlotFacts(k, 6);
  }

  lemma ServerReadsChannelId(k: Scenario, e: S.Server)
    requires ServerReady(k, e) && e.state.ReadChannelId? && !Resuming(k)
    ensures ServerAdvances(k, e, S.DoReadChannelId(e, ServerOracle(k)))
  {
    hide Records, Transcript, NextSlot, HelloId, Agreed, RequestsCertificate, SendsParams, Slot, FromClient, Honest;
    ExtensionSlots(k);
    SlotFacts(k, 12);
  }

  lemma ServerReadsChannelIdResuming(k: Scenario, e: S.Server)
    requires ServerReady(k, e) && e.state.ReadChannelId? && Resuming(k)
    ensures ServerAdvances(k, e, S.DoReadChannelId(e, ServerOracle(k)))
  {
    hide Records, Transcript, NextSlot, HelloId, Agreed, RequestsCertificate, SendsParams, Slot, FromClient, Honest;
    ExtensionSlots(k);
    RequestFacts(k);
    SlotFacts(k, 7);
  }

  lemma ServerReadsFinished(k: Scenario, e: S.Server)
    requires ServerReady(k, e) && e.state.ReadClientFinished? && !Resuming(k)
    ensures ServerAdvances(k, e, S.DoReadClientFinished(e, ServerOracle(k)))
  {
    hide Records, Transcript, NextSlot, HelloId, Agreed, RequestsCertificate, SendsParams, Slot, FromClient, Honest;
    SlotFacts(k, 13);
    FinishedSlots(k);
  }

  lemma ServerReadsFinishedResuming(k: Scenario, e: S.Server)
    requires ServerReady(k, e) && e.state.ReadClientFinished? && Resuming(k)
    ensures ServerAdvances(k, e, S.DoReadClientFinished(e, ServerOracle(k)))
  {
    hide Records, Transcript, NextSlot, HelloId, Agreed, RequestsCertificate, SendsParams, Slot, FromClient, Honest;
    SlotFacts(k, 8);
    FinishedSlots(k);
  }

  lemma ServerSendsFinished(k: Scenario, e: S.Server)
    requires ServerReady(k, e) && e.state.SendServerFinished? && !Resuming(k)
    ensures ServerAdvances(k, e, S.DoSendServerFinished(e, ServerOracle(k)))
  {
    hide Records, Transcript, NextSlot, HelloId, RequestsCertificate, SendsParams;
    var i := 14;
    Span3(k, i);
    var pending := e.wire.pending + Present(k, i);
    assert e.wire.pending + Records(k, false, i, i + 3) == pending + Present(k, i + 1) + Present(k, i + 2);
    assert Said(k, i + 1) == [] && Present(k, i + 1) == [ChangeCipherSpec];
    assert Present(k, i) == (if e.neg.extensions.ticket then [Handshake(NewSessionTicket(k.emptyTicket))] else []);
    assert e.neg.extensions.ticket || pending == e.wire.pending;
    assert Transcript(k, i + 2) == e.wire.transcript + (if e.neg.extensions.ticket then [NewSessionTicket(k.emptyTicket)] else []);
    assert e.neg.extensions.ticket || Transcript(k, i + 2) == e.wire.transcript;
    assert Present(k, i + 2) == [Handshake(Finished(Mac(Transcript(k, i + 2), true, e.master)))];
  }

  lemma ServerSendsFinishedResuming(k: Scenario, e: S.Server)
    requires ServerReady(k, e) && e.state.SendServerFinished? && Resuming(k)
    ensures ServerAdvances(k, e, S.DoSendServerFinished(e, ServerOracle(k)))
  {
    hide Records, Transcript, NextSlot, HelloId, RequestsCertificate, SendsParams;
    var i := 2;
    Span3(k, i);
    var pending := e.wire.pending + Present(k, i);
    assert e.wire.pending + Records(k, false, i, i + 3) == pending + Present(k, i + 1) + Present(k, i + 2);
    assert Said(k, i + 1) == [] && Present(k, i + 1) == [ChangeCipherSpec];
    assert Present(k, i) == (if e.neg.extensions.ticket then [Handshake(NewSessionTicket(k.emptyTicket))] else []);
    assert e.neg.extensions.ticket || pending == e.wire.pending;
    assert Transcript(k, i + 2) == e.wire.transcript + (if e.neg.extensions.ticket then [NewSessionTicket(k.emptyTicket)] else []);
    assert e.neg.extensions.ticket || Transcript(k, i + 2) == e.wire.transcript;
    assert Present(k, i + 2) == [Handshake(Finished(Mac(Transcript(k, i + 2), true, e.master)))];
  }

  lemma ServerFinishes(k: Scenario, e: S.Server)
    requires ServerReady(k, e) && e.state.FinishServerHandshake?
    ensures ServerAdvances(k, e, S.DoFinishServerHandshake(e, ServerOracle(k)))
  {
    hide Records, Transcript, NextSlot, HelloId, Agreed, RequestsCertificate, SendsParams;
    RecordsEmpty(k, true, ServerPos(k, e));
    RecordsEmpty(k, false, ServerPos(k, e));
  }

  // ------------------------------------------------------------------ the pair

  lemma ClientSteps(k: Scenario, e: C.Client)
    requires ClientReady(k, e) && !e.state.Done?
    ensures ClientAdvances(k, e, C.Step(e, ClientOracle(k)))
  {
    hide ClientReady, ClientAdvances, C.DoStartConnect, C.DoEnterEarlyData, C.DoReadServerHello,
      C.DoReadServerCertificate, C.DoReadCertificateStatus, C.DoVerifyServerCertificate, C.DoReadServerKeyExchange,
      C.DoReadCertificateRequest, C.DoReadServerHelloDone, C.DoSendClientCertificate, C.DoSendClientKeyExchange,
      C.DoSendClientCertificateVerify, C.DoSendClientFinished, C.DoFinishFlight, C.DoFinishClientHandshake,
      C.DoReadSessionTicket, C.DoProcessChangeCipherSpec, C.DoReadServerFinished;
    assert ClientState(k, e.state) by { ClientReadyState(k, e); }
    match e.state
    case StartConnect => ClientStarts(k, e);
    case EnterEarlyData => ClientSkipsEarlyData(k, e);
    case ReadServerHello => if Resuming(k) { ClientReadsServerHelloResuming(k, e); } else { ClientReadsServerHello(k, e); }
    case ReadServerCertificate => ClientReadsCertificate(k, e);
    case ReadCertificateStatus => ClientReadsStatus(k, e);
    case VerifyServerCertificate => ClientVerifies(k, e);
    case ReadServerKeyExchange => ClientReadsKeyExchange(k, e);
    case ReadCertificateRequest => ClientReadsRequest(k, e);
    case ReadServerHelloDone => ClientReadsHelloDone(k, e);
    case SendClientCertificate => ClientSendsCertificate(k, e);
    case SendClientKeyExchange => ClientSendsKeyExchange(k, e);
    case SendClientCertificateVerify => ClientSendsVerify(k, e);
    case SendClientFinished => if Resuming(k) { ClientSendsFinishedResuming(k, e); } else { ClientSendsFinished(k, e); }
    case FinishFlight => ClientFinishesFlight(k, e);
    case FinishClientHandshake => ClientFinishes(k, e);
    case ReadSessionTicket => if Resuming(k) { ClientReadsTicketResuming(k, e); } else { ClientReadsTicket(k, e); }
    case ProcessChangeCipherSpec => if Resuming(k) { ClientChangesCipherResuming(k, e); } else { ClientChangesCipher(k, e); }
    case ReadServerFinished => if Resuming(k) { ClientReadsFinishedResuming(k, e); } else { ClientReadsFinished(k, e); }
    case _ =>
  }

  lemma ClientReadyState(k: Scenario, e: C.Client)
    requires ClientReady(k, e)
    ensures ClientState(k, e.state)
  {
  }

  lemma ServerSteps(k: Scenario, e: S.Server)
    requires ServerReady(k, e) && !e.state.Done?
    ensures ServerAdvances(k, e, S.Step(e, ServerOracle(k)))
  {
    hide ServerReady, ServerAdvances, S.DoStartAccept, S.DoReadClientHello, S.DoSelectCertificate,
      S.DoSelectParameters, S.DoSendServerHello, S.DoSendServerCertificate, S.DoSendServerKeyExchange,
      S.DoSendServerHelloDone, S.DoReadClientCertificate, S.DoVerifyClientCertificate, S.DoReadClientKeyExchange,
      S.DoReadClientCertificateVerify, S.DoStartChangeCipherSpec, S.DoProcessChangeCipherSpec, S.DoReadNextProto,
      S.DoReadChannelId, S.DoReadClientFinished, S.DoSendServerFinished, S.DoFinishServerHandshake;
    assert ServerState(k, e.state) by { ServerReadyState(k, e); }
    match e.state
    case StartAccept => ServerStarts(k, e);
    case ReadClientHello => ServerReadsHello(k, e);
    case SelectCertificate => ServerSelectsCertificate(k, e);
    case SelectParameters => if Resuming(k) { ServerSelectsParametersResuming(k, e); } else { ServerSelectsParameters(k, e); }
    case SendServerHello => if Resuming(k) { ServerSendsHelloResuming(k, e); } else { ServerSendsHello(k, e); }
    case SendServerCertificate => ServerSendsCertificate(k, e);
    case SendServerKeyExchange => ServerSendsKeyExchange(k, e);
    case SendServerHelloDone => ServerSendsHelloDone(k, e);
    case ReadClientCertificate => ServerReadsCertificate(k, e);
    case VerifyClientCertificate => ServerVerifies(k, e);
    case ReadClientKeyExchange => ServerReadsKeyExchange(k, e);
    case ReadClientCertificateVerify => ServerReadsVerify(k, e);
    case StartChangeCipherSpec => if Resuming(k) { ServerStartsCipherChangeResuming(k, e); } else { ServerStartsCipherChange(k, e); }
    case ProcessChangeCipherSpec => if Resuming(k) { ServerChangesCipherResuming(k, e); } else { ServerChangesCipher(k, e); }
    case ReadNextProto => if Resuming(k) { ServerReadsNextProtoResuming(k, e); } else { ServerReadsNextProto(k, e); }
    case ReadChannelId => if Resuming(k) { ServerReadsChannelIdResuming(k, e); } else { ServerReadsChannelId(k, e); }
    case ReadClientFinished => if Resuming(k) { ServerReadsFinishedResuming(k, e); } else { ServerReadsFinished(k, e); }
    case SendServerFinished => if Resuming(k) { ServerSendsFinishedResuming(k, e); } else { ServerSendsFinished(k, e); }
    case FinishServerHandshake => ServerFinishes(k, e);
    case _ =>
  }

  lemma ServerReadyState(k: Scenario, e: S.Server)
    requires ServerReady(k, e)
    ensures ServerState(k, e.state)
  {
  }

  /** The same callbacks when they ask to be called again. */
  function ClientAsks(k: Scenario): C.Oracle {
    ClientOracle(k).(pause := true, verify := VerifyRetry)
  }

  function ServerAsks(k: Scenario): S.Oracle {
    ServerOracle(k).(pause := true, verify := VerifyRetry)
  }

  /** A step that is asked to come again has done nothing, or did not ask. */
  lemma ClientPauses(k: Scenario, e: C.Client)
    requires ClientReady(k, e) && !e.state.Done?
    ensures var e' := C.Step(e, ClientAsks(k));
      if e'.wait.Retry? then e' == e.Stay(Retry) && !e.state.ProcessChangeCipherSpec? else e' == C.Step(e, ClientOracle(k))
  {
    hide ClientKnows, ClientWait, Honest, InboxAgrees, Transcript;
    assert ClientState(k, e.state);
  }

  lemma ServerPauses(k: Scenario, e: S.Server)
    requires ServerReady(k, e) && !e.state.Done?
    ensures var e' := S.Step(e, ServerAsks(k));
      if e'.wait.Retry? then e' == e.Stay(Retry) && !e.state.ProcessChangeCipherSpec? else e' == S.Step(e, ServerOracle(k))
  {
    hide ServerKnows, ServerWait, Honest, InboxAgrees, Transcript;
    assert ServerState(k, e.state);
  }

  /** The two ends, the records on the way to each, and how often callbacks may still ask to be
      called again. */
  datatype Pair = Pair(c: C.Client, s: S.Server, toClient: seq<Item>, toServer: seq<Item>, pauses: nat)

  /** A side is driven a round, in which a callback may ask to be called again, or one record arrives. */
  datatype Move = DriveClient(asks: bool) | DriveServer(asks: bool) | ToClient | ToServer

  /** A flush puts the flight on its way. */
  function Turn(k: Scenario, p: Pair, m: Move): Pair {
    match m
    case DriveClient(asks) =>
      var c' := C.Drive(p.c, if asks && p.pauses > 0 then ClientAsks(k) else ClientOracle(k));
      p.(c := c', toServer := Sent(p.toServer, p.c.wait.Flush?, p.c.wire), pauses := Spent(p.pauses, c'.wait))
    case DriveServer(asks) =>
      var s' := S.Drive(p.s, if asks && p.pauses > 0 then ServerAsks(k) else ServerOracle(k));
      p.(s := s', toClient := Sent(p.toClient, p.s.wait.Flush?, p.s.wire), pauses := Spent(p.pauses, s'.wait))
    case ToClient =>
      if p.toClient == [] then p
      else p.(c := p.c.(wire := p.c.wire.Receive([p.toClient[0]])), toClient := p.toClient[1..])
    case ToServer =>
      if p.toServer == [] then p
      else p.(s := p.s.(wire := p.s.wire.Receive([p.toServer[0]])), toServer := p.toServer[1..])
  }

  function Sent(way: seq<Item>, flush: bool, w: Wire): seq<Item> {
    if flush then way + w.pending else way
  }

  function Spent(pauses: nat, wait: Wait): nat {
    if wait.Retry? && pauses > 0 then pauses - 1 else pauses
  }

  function Run(k: Scenario, p: Pair, schedule: seq<Move>): Pair {
    if schedule == [] then p
    else
      var n := |schedule| - 1;
      Turn(k, Run(k, p, schedule[..n]), schedule[n])
  }

  /** Two endpoints before the handshake. */
  predicate Initial(k: Scenario, p: Pair) {
    && p.c.state.StartConnect? && p.c.wait.Ok? && p.c.session == k.offered && p.c.cfg == k.clientCfg
    && !p.c.neg.tls13 && p.c.wire == Wire([], [], [], [])
    && p.s.state.StartAccept? && p.s.wait.Ok? && p.s.cfg == k.serverCfg
    && !p.s.neg.tls13 && p.s.peerCerts == 0 && p.s.wire == Wire([], [], [], [])
    && p.toClient == p.toServer == []
  }

  /** Both endpoints before their first step. */
  function Start(k: Scenario, pauses: nat): Pair {
    var nothing := Wire([], [], [], []);
    var noExtensions := Extensions(false, false, false, false);
    Pair(C.Client(C.StartConnect, Ok, k.offered, 0, NoMaster, k.clientCfg, C.Negotiated(false, Rsa, noExtensions, false), nothing),
         S.Server(S.StartAccept, Ok, None, 0, NoMaster, k.serverCfg, S.Negotiated(false, Rsa, noExtensions, false, false), nothing),
         [], [], pauses)
  }

  /** The full handshake with exactly these features. */
  function FullHandshake(cipher: Cipher, extensions: Extensions, certRequest: bool, clientCerts: nat, pskHint: bool): Scenario {
    Scenario(C.Config(false, false, false, clientCerts), None, 1, 0,
             S.Config(certRequest, false, false, extensions.status, pskHint),
             S.Choice(false, cipher, None, false, extensions.ticket, extensions.nextProto, extensions.channelId, false, true), 0, false)
  }

  /** The resumption with exactly these features. */
  function Resumption(cipher: Cipher, extensions: Extensions): Scenario {
    var session := Session(1, cipher, Stored(1), true);
    Scenario(C.Config(false, false, false, 0), Some(session), 2, 0, S.Config(false, false, false, false, false),
             S.Choice(false, cipher, Some(session), extensions.ticket, false, extensions.nextProto, extensions.channelId, false, true), 0, false)
  }

  /** The scenarios cover every combination: any cipher with or without a request for a client
      certificate, a client with or without one, and any extensions the cipher allows. */
  lemma EveryCombination(cipher: Cipher, e: Extensions, certRequest: bool, clientCerts: nat, pskHint: bool, pauses: nat)
    requires e.status || certRequest ==> cipher.UsesCertificate()
    requires e.channelId ==> cipher.UsesEcdhe()
    ensures var k := FullHandshake(cipher, e, certRequest, clientCerts, pskHint);
      Honest(k) && Initial(k, Start(k, pauses)) && !Resuming(k) && Cipher(k) == cipher && Agreed(k) == e && RequestsCertificate(k) == certRequest
    ensures !e.status ==>
      var k := Resumption(cipher, e);
      Honest(k) && Initial(k, Start(k, pauses)) && Resuming(k) && Cipher(k) == cipher && Agreed(k) == e
  {
  }

  ghost predicate PairInv(k: Scenario, p: Pair) {
    && Honest(k) && ClientLocal(k, p.c) && ServerLocal(k, p.s)
    && ClientPos(k, p.c) <= Length(k) && ServerPos(k, p.s) <= Length(k)
    && InFlight(k, true, p.s.wire.inbox, p.toServer + p.c.wire.pending, ServerPos(k, p.s), ClientPos(k, p.c))
    && InFlight(k, false, p.c.wire.inbox, p.toClient + p.s.wire.pending, ClientPos(k, p.c), ServerPos(k, p.s))
  }

  lemma InitialInv(k: Scenario, p: Pair)
    requires Honest(k) && Initial(k, p)
    ensures PairInv(k, p)
  {
    hide Slot;
    TranscriptStart(k);
  }

  /** What the first record in a queue is. */
  lemma QueueAgrees(k: Scenario, d: bool, inbox: seq<Item>, pending: seq<Item>, rp: nat, sp: nat)
    requires InFlight(k, d, inbox, pending, rp, sp) && sp <= Length(k)
    ensures InboxAgrees(k, d, inbox, rp)
  {
    hide InFlight, Records;
    if inbox != [] { FirstInFlight(k, d, inbox, pending, rp, sp); }
  }

  lemma {:induction false} NextRecord(k: Scenario, d: bool, p: nat)
    requires NextIsFrom(k, p, d)
    ensures Records(k, d, p, Length(k)) != [] && Records(k, d, p, Length(k))[0] == Slot(k, NextSlot(k, p)).value
    decreases Length(k) - p
  {
    hide Slot;
    if Slot(k, p).None? { NextRecord(k, d, p + 1); }
  }

  /** A round of one endpoint: what its script position, flight and queue become. */
  ghost predicate Round(k: Scenario, client: bool, flush: bool, w: Wire, w': Wire, p: nat, p': nat) {
    if flush then p' == p && w' == w.(pending := [])
    else Moves(k, client, w, w', p, p')
  }

  lemma ClientDrives(k: Scenario, e: C.Client, o: C.Oracle)
    requires Honest(k) && ClientLocal(k, e) && ClientPos(k, e) <= Length(k)
    requires InboxAgrees(k, false, e.wire.inbox, ClientPos(k, e)) && (o == ClientOracle(k) || o == ClientAsks(k))
    ensures var e' := C.Drive(e, o);
            ClientLocal(k, e') && Round(k, true, e.wait.Flush?, e.wire, e'.wire, ClientPos(k, e), ClientPos(k, e'))
  {
    hide C.Step, Slot, Transcript, Records, NextSlot, ClientKnows, ClientOracle, ClientAsks;
    var e' := C.Drive(e, o);
    var p := ClientPos(k, e);
    RecordsEmpty(k, true, p);
    RecordsEmpty(k, false, p);
    if e.wait.Ok? && !e.state.Done? {
      ClientSteps(k, e);
      if o == ClientAsks(k) {
        ClientPauses(k, e);
        if e'.wait.Retry? { SameClientKnows(k, e, e'); }
      }
    } else {
      assert ClientKnows(k, e') by { SameClientKnows(k, e, e'); }
      if e.wait.ReadMessage? { NextRecord(k, false, p); }
      if e.wait.ReadChangeCipherSpec? { CipherSlot(k, p); }
    }
  }

  lemma SameClientKnows(k: Scenario, e: C.Client, e': C.Client)
    requires ClientKnows(k, e) && e'.state == e.state && e'.session == e.session && e'.sessionId == e.sessionId
    requires e'.master == e.master && e'.cfg == e.cfg && e'.neg == e.neg
    requires ClientPos(k, e) == ClientPos(k, e') || (e.state.ProcessChangeCipherSpec? && ClientState(k, e.state))
    ensures ClientKnows(k, e')
  {
    hide Transcript;
  }

  /** A slot with a ChangeCipherSpec. */
  lemma CipherSlot(k: Scenario, i: nat)
    requires i == (if Resuming(k) then 3 else 15) || i == (if Resuming(k) then 5 else 10)
    ensures Slot(k, i) == Some(ChangeCipherSpec)
    ensures Transcript(k, i + 1) == Transcript(k, i)
    ensures var d := FromClient(k, i);
            && Records(k, d, i, Length(k)) != [] && Records(k, d, i, Length(k))[0] == ChangeCipherSpec
            && Records(k, d, i, i + 1) == [ChangeCipherSpec] && Records(k, !d, i, i + 1) == []
  {
    hide Records, Transcript, NextSlot;
    SlotFacts(k, i);
    assert Transcript(k, i) + [] == Transcript(k, i);
  }

  lemma ServerDrives(k: Scenario, e: S.Server, o: S.Oracle)
    requires Honest(k) && ServerLocal(k, e) && ServerPos(k, e) <= Length(k)
    requires InboxAgrees(k, true, e.wire.inbox, ServerPos(k, e)) && (o == ServerOracle(k) || o == ServerAsks(k))
    ensures var e' := S.Drive(e, o);
            ServerLocal(k, e') && Round(k, false, e.wait.Flush?, e.wire, e'.wire, ServerPos(k, e), ServerPos(k, e'))
  {
    hide S.Step, Slot, Transcript, Records, NextSlot, ServerKnows, ServerOracle, ServerAsks;
    var e' := S.Drive(e, o);
    var p := ServerPos(k, e);
    RecordsEmpty(k, true, p);
    RecordsEmpty(k, false, p);
    if e.wait.Ok? && !e.state.Done? {
      ServerSteps(k, e);
      if o == ServerAsks(k) {
        ServerPauses(k, e);
        if e'.wait.Retry? { SameServerKnows(k, e, e'); }
      }
    } else {
      assert ServerKnows(k, e') by { SameServerKnows(k, e, e'); }
      if e.wait.ReadMessage? { NextRecord(k, true, p); }
      if e.wait.ReadChangeCipherSpec? { CipherSlot(k, p); }
    }
  }

  lemma SameServerKnows(k: Scenario, e: S.Server, e': S.Server)
    requires ServerKnows(k, e) && e'.state == e.state && e'.session == e.session && e'.peerCerts == e.peerCerts
    requires e'.master == e.master && e'.cfg == e.cfg && e'.neg == e.neg
    requires ServerPos(k, e) == ServerPos(k, e') || (e.state.ProcessChangeCipherSpec? && ServerState(k, e.state))
    ensures ServerKnows(k, e')
  {
    hide Transcript;
  }

  /** A round keeps both directions in step with the script: way are the records sent before, and
      back those the peer has sent. */
  lemma RoundKeepsFlight(k: Scenario, client: bool, flush: bool, w: Wire, w': Wire, p: nat, p': nat,
                         way: seq<Item>, back: seq<Item>, peerInbox: seq<Item>, peerPos: nat)
    requires Round(k, client, flush, w, w', p, p') && p <= Length(k) && peerPos <= Length(k)
    requires InFlight(k, client, peerInbox, way + w.pending, peerPos, p)
    requires InFlight(k, !client, w.inbox, back, p, peerPos)
    ensures InFlight(k, client, peerInbox, Sent(way, flush, w) + w'.pending, peerPos, p')
    ensures InFlight(k, !client, w'.inbox, back, p', peerPos)
  {
    hide Records, InFlight;
    if flush {
      assert (way + w.pending) + [] == way + w.pending;
    } else {
      SenderMoves(k, client, peerInbox, way + w.pending, peerPos, p, p');
      assert (way + w.pending) + Records(k, client, p, p') == way + w'.pending;
      ReceiverMoves(k, !client, w.inbox, w'.inbox, back, p, p', peerPos);
    }
  }

  /** So does the arrival of a record. */
  lemma ArrivalKeepsFlight(k: Scenario, d: bool, inbox: seq<Item>, way: seq<Item>, pending: seq<Item>, rp: nat, sp: nat)
    requires InFlight(k, d, inbox, way + pending, rp, sp) && way != []
    ensures InFlight(k, d, inbox + [way[0]], way[1..] + pending, rp, sp)
  {
    hide Records;
    assert inbox + (way + pending) == inbox + [way[0]] + (way[1..] + pending);
    assert (way + pending)[0] == way[0];
  }

  lemma TurnInv(k: Scenario, p: Pair, m: Move)
    requires PairInv(k, p)
    ensures PairInv(k, Turn(k, p, m))
  {
    hide InFlight, C.Drive, S.Drive, ClientKnows, ServerKnows, ClientOracle, ServerOracle, ClientAsks, ServerAsks, Moves,
      InboxAgrees, Sent;
    var cp, sp := ClientPos(k, p.c), ServerPos(k, p.s);
    var q := Turn(k, p, m);
    match m
    case DriveClient(asks) =>
      QueueAgrees(k, false, p.c.wire.inbox, p.toClient + p.s.wire.pending, cp, sp);
      ClientDrives(k, p.c, if asks && p.pauses > 0 then ClientAsks(k) else ClientOracle(k));
      RoundKeepsFlight(k, true, p.c.wait.Flush?, p.c.wire, q.c.wire, cp, ClientPos(k, q.c),
                       p.toServer, p.toClient + p.s.wire.pending, p.s.wire.inbox, sp);
    case DriveServer(asks) =>
      QueueAgrees(k, true, p.s.wire.inbox, p.toServer + p.c.wire.pending, sp, cp);
      ServerDrives(k, p.s, if asks && p.pauses > 0 then ServerAsks(k) else ServerOracle(k));
      RoundKeepsFlight(k, false, p.s.wait.Flush?, p.s.wire, q.s.wire, sp, ServerPos(k, q.s),
                       p.toClient, p.toServer + p.c.wire.pending, p.c.wire.inbox, cp);
    case ToClient =>
      if p.toClient != [] {
        ArrivalKeepsFlight(k, false, p.c.wire.inbox, p.toClient, p.s.wire.pending, cp, sp);
        assert ClientLocal(k, q.c) by { SameClientKnows(k, p.c, q.c); }
      }
    case ToServer =>
      if p.toServer != [] {
        ArrivalKeepsFlight(k, true, p.s.wire.inbox, p.toServer, p.c.wire.pending, sp, cp);
        assert ServerLocal(k, q.s) by { SameServerKnows(k, p.s, q.s); }
      }
  }

  lemma {:induction false} RunInv(k: Scenario, p: Pair, schedule: seq<Move>)
    requires Honest(k) && Initial(k, p)
    ensures PairInv(k, Run(k, p, schedule))
  {
    hide PairInv, Turn;
    if schedule == [] {
      InitialInv(k, p);
    } else {
      var n := |schedule| - 1;
      RunInv(k, p, schedule[..n]);
      TurnInv(k, Run(k, p, schedule[..n]), schedule[n]);
    }
  }

  // ------------------------------------------------------------------ safety

  /** Under every schedule no record is rejected, and the two transcripts are always two
      prefixes of one conversation. */
  lemma NothingIsRejected(k: Scenario, p: Pair, schedule: seq<Move>)
    requires Honest(k) && Initial(k, p)
    ensures var q := Run(k, p, schedule);
            && !q.c.wait.Error? && !q.s.wait.Error?
            && (q.c.wire.transcript <= q.s.wire.transcript || q.s.wire.transcript <= q.c.wire.transcript)
  {
    RunInv(k, p, schedule);
    hide Run, PairInv, Honest;
    OneConversation(k, Run(k, p, schedule));
  }

  lemma OneConversation(k: Scenario, q: Pair)
    requires PairInv(k, q)
    ensures !q.c.wait.Error? && !q.s.wait.Error?
    ensures q.c.wire.transcript <= q.s.wire.transcript || q.s.wire.transcript <= q.c.wire.transcript
  {
    hide InFlight, ClientKnows, ServerKnows, Transcript, ClientPos, ServerPos, Honest;
    var cp, sp := ClientPos(k, q.c), ServerPos(k, q.s);
    if cp <= sp { TranscriptPrefix(k, cp, sp); } else { TranscriptPrefix(k, sp, cp); }
  }

  lemma {:induction false} TranscriptPrefix(k: Scenario, a: nat, b: nat)
    requires a <= b
    ensures Transcript(k, a) <= Transcript(k, b)
    decreases b
  {
    hide Slot;
    if a < b { TranscriptPrefix(k, a, b - 1); }
  }

  lemma ClientFinishedAgrees(k: Scenario, c: C.Client)
    requires ClientLocal(k, c) && InboxAgrees(k, false, c.wire.inbox, ClientPos(k, c))
    requires c.state.ReadServerFinished? && c.wire.Next().Some?
    ensures c.wire.Next().value == Finished(Mac(c.wire.transcript, true, c.master))
  {
    hide Transcript, Records, NextSlot, Agreed, RequestsCertificate;
    if Resuming(k) { SlotFacts(k, 4); } else { SlotFacts(k, 16); }
  }

  lemma ServerFinishedAgrees(k: Scenario, s: S.Server)
    requires ServerLocal(k, s) && InboxAgrees(k, true, s.wire.inbox, ServerPos(k, s))
    requires s.state.ReadClientFinished? && s.wire.Next().Some?
    ensures s.wire.Next().value == Finished(Mac(s.wire.transcript, false, s.master))
  {
    hide Transcript, Records, NextSlot, Agreed, RequestsCertificate;
    if Resuming(k) { SlotFacts(k, 8); } else { SlotFacts(k, 13); }
  }

  /** A Finished waiting to be read covers exactly the transcript of its reader, under the
      reader's master secret. */
  lemma FinishedAgrees(k: Scenario, p: Pair, schedule: seq<Move>)
    requires Honest(k) && Initial(k, p)
    ensures var q := Run(k, p, schedule);
            && (q.c.state.ReadServerFinished? && q.c.wire.Next().Some? ==>
                q.c.wire.Next().value == Finished(Mac(q.c.wire.transcript, true, q.c.master)))
            && (q.s.state.ReadClientFinished? && q.s.wire.Next().Some? ==>
                q.s.wire.Next().value == Finished(Mac(q.s.wire.transcript, false, q.s.master)))
  {
    var q := Run(k, p, schedule);
    assert PairInv(k, q) by { RunInv(k, p, schedule); }
    hide Run, InFlight, ClientLocal, ServerLocal, InboxAgrees;
    var cp, sp := ClientPos(k, q.c), ServerPos(k, q.s);
    QueueAgrees(k, false, q.c.wire.inbox, q.toClient + q.s.wire.pending, cp, sp);
    QueueAgrees(k, true, q.s.wire.inbox, q.toServer + q.c.wire.pending, sp, cp);
    if q.c.state.ReadServerFinished? && q.c.wire.Next().Some? { ClientFinishedAgrees(k, q.c); }
    if q.s.state.ReadClientFinished? && q.s.wire.Next().Some? { ServerFinishedAgrees(k, q.s); }
  }

  // ------------------------------------------------------------------ progress

  predicate ClientBlocked(c: C.Client) {
    (c.wait.ReadMessage? || c.wait.ReadChangeCipherSpec?) && c.wire.inbox == []
  }

  predicate ServerBlocked(s: S.Server) {
    (s.wait.ReadMessage? || s.wait.ReadChangeCipherSpec?) && s.wire.inbox == []
  }

  predicate ClientDone(c: C.Client) {
    c.state.Done? && c.wait.Ok?
  }

  predicate ServerDone(s: S.Server) {
    s.state.Done? && s.wait.Ok?
  }

  /** The move would change something. */
  predicate Enabled(p: Pair, m: Move) {
    match m
    case DriveClient(_) => !ClientDone(p.c) && !ClientBlocked(p.c)
    case DriveServer(_) => !ServerDone(p.s) && !ServerBlocked(p.s)
    case ToClient => p.toClient != []
    case ToServer => p.toServer != []
  }

  /** Nothing can happen any more. */
  ghost predicate Still(p: Pair) {
    forall m :: !Enabled(p, m)
  }

  lemma {:induction false} SilentSlots(k: Scenario, a: nat, b: nat)
    requires a <= b <= Length(k) && Records(k, true, a, b) == [] && Records(k, false, a, b) == []
    ensures NextSlot(k, a) == NextSlot(k, b)
    decreases b - a
  {
    hide Slot;
    if a < b { SilentSlots(k, a + 1, b); }
  }

  /** A blocked client has flushed all it had and waits for the server. */
  lemma BlockedClient(k: Scenario, c: C.Client)
    requires ClientLocal(k, c) && ClientBlocked(c)
    ensures c.wire.pending == [] && NextIsFrom(k, ClientPos(k, c), false)
  {
    hide Records, Transcript, ClientKnows, NextSlot;
    var p := ClientPos(k, c);
    if c.wait.ReadChangeCipherSpec? { SlotFacts(k, p); }
    if ClientHolds(c) {
      SlotFacts(k, p);
      if p == 9 { SlotFacts(k, 10); }
    }
  }

  lemma BlockedServer(k: Scenario, s: S.Server)
    requires ServerLocal(k, s) && ServerBlocked(s)
    ensures s.wire.pending == [] && NextIsFrom(k, ServerPos(k, s), true)
  {
    hide Records, Transcript, ServerKnows, NextSlot;
    var p := ServerPos(k, s);
    if s.wait.ReadChangeCipherSpec? { SlotFacts(k, p); }
    if ServerHolds(s) {
      SlotFacts(k, p);
      SlotFacts(k, p + 1);
      if p < 6 && !Resuming(k) { SlotFacts(k, 4); SlotFacts(k, 5); SlotFacts(k, 6); }
    }
  }

  /** With nothing on the way, the script has nothing of this direction between the two. */
  lemma NothingBetween(k: Scenario, d: bool, inbox: seq<Item>, sent: seq<Item>, rp: nat, sp: nat)
    requires InFlight(k, d, inbox, sent, rp, sp) && inbox == sent == []
    ensures Records(k, d, rp, sp) == Records(k, d, sp, rp) == []
  {
    hide Slot;
  }

  /** No reachable state deadlocks: unless both sides are done, something can happen. */
  lemma NoDeadlock(k: Scenario, q: Pair)
    requires PairInv(k, q) && Still(q)
    ensures ClientDone(q.c) && ServerDone(q.s) && q.toClient == q.toServer == []
  {
    hide Records, NextSlot, ClientLocal, ServerLocal, Slot, Transcript, InFlight, NextIsFrom, ClientPos, ServerPos;
    assert !Enabled(q, DriveClient(false)) && !Enabled(q, DriveServer(false)) && !Enabled(q, ToClient) && !Enabled(q, ToServer);
    ClientFlushed(k, q.c);
    ServerFlushed(k, q.s);
    var cp, sp := ClientPos(k, q.c), ServerPos(k, q.s);
    if ClientBlocked(q.c) {
      NothingBetween(k, false, q.c.wire.inbox, q.toClient + q.s.wire.pending, cp, sp);
      NextRecord(k, false, cp);
    }
    if ServerBlocked(q.s) {
      NothingBetween(k, true, q.s.wire.inbox, q.toServer + q.c.wire.pending, sp, cp);
      NextRecord(k, true, sp);
    }
    if ClientBlocked(q.c) && ServerBlocked(q.s) {
      if cp <= sp { SilentSlots(k, cp, sp); } else { SilentSlots(k, sp, cp); }
      OneTurn(k, cp, sp);
    }
  }

  lemma OneTurn(k: Scenario, p: nat, q: nat)
    requires NextIsFrom(k, p, false) && NextIsFrom(k, q, true)
    ensures NextSlot(k, p) != NextSlot(k, q)
  {
    hide NextSlot, Slot;
  }

  /** A client that cannot move has flushed all it had; it waits for the server or is done. */
  lemma ClientFlushed(k: Scenario, c: C.Client)
    requires ClientLocal(k, c) && (ClientDone(c) || ClientBlocked(c))
    ensures c.wire.pending == [] && if ClientBlocked(c) then NextIsFrom(k, ClientPos(k, c), false) else ClientPos(k, c) == Length(k)
  {
    hide Records, Transcript, ClientKnows, NextSlot, NextIsFrom, ClientWait;
    if ClientBlocked(c) { BlockedClient(k, c); }
  }

  lemma ServerFlushed(k: Scenario, s: S.Server)
    requires ServerLocal(k, s) && (ServerDone(s) || ServerBlocked(s))
    ensures s.wire.pending == [] && if ServerBlocked(s) then NextIsFrom(k, ServerPos(k, s), true) else ServerPos(k, s) == Length(k)
  {
    hide Records, Transcript, ServerKnows, NextSlot, NextIsFrom, ServerWait;
    if ServerBlocked(s) { BlockedServer(k, s); }
  }

  function WaitWeight(w: Wait, wire: Wire): nat {
    match w
    case Ok => if wire.Next().None? then 3 else 1
    case ReadMessage => 2
    case _ => 4
  }

  /** The records of one direction that have not arrived, sent or not. */
  function Outstanding(k: Scenario, d: bool, p: nat, pending: seq<Item>, way: seq<Item>): nat {
    |Records(k, d, p, Length(k))| + |pending| + |way|
  }

  function ClientShare(k: Scenario, c: C.Client): nat {
    5 * C.Rank(c.state, Resuming(k)) + WaitWeight(c.wait, c.wire)
  }

  function ServerShare(k: Scenario, s: S.Server): nat {
    5 * S.Rank(s.state, Resuming(k)) + WaitWeight(s.wait, s.wire)
  }

  /** What can still happen. */
  function Measure(k: Scenario, p: Pair): nat {
    ClientShare(k, p.c) + Outstanding(k, true, ClientPos(k, p.c), p.c.wire.pending, p.toServer) +
    ServerShare(k, p.s) + Outstanding(k, false, ServerPos(k, p.s), p.s.wire.pending, p.toClient) + 5 * p.pauses
  }

  lemma RoundOutstanding(k: Scenario, d: bool, flush: bool, w: Wire, w': Wire, p: nat, p': nat, way: seq<Item>)
    requires Round(k, d, flush, w, w', p, p') && p <= Length(k)
    ensures Outstanding(k, d, p', w'.pending, Sent(way, flush, w)) == Outstanding(k, d, p, w.pending, way)
  {
    hide Records;
    if !flush { RecordsSplit(k, d, p, p', Length(k)); }
  }

  /** A record that arrives keeps no one from waking up. */
  lemma ArrivalWeight(w: Wire, wait: Wait, item: Item)
    ensures WaitWeight(wait, w.Receive([item])) <= WaitWeight(wait, w)
  {
  }

  lemma ClientWeight(k: Scenario, e: C.Client, o: C.Oracle)
    requires ClientLocal(k, e) && ClientLocal(k, C.Drive(e, o)) && !ClientDone(e) && !ClientBlocked(e)
    requires !C.Drive(e, o).wait.Retry?
    ensures ClientShare(k, C.Drive(e, o)) < ClientShare(k, e)
  {
    hide C.Step, Slot, Transcript, NextSlot, C.Rank;
    if e.wait.Ok? {
      if e.state.Done? { assert false; }
      C.StepDescends(e, o);
      ClientRank(k, e);
      ClientRank(k, C.Drive(e, o));
    }
  }

  lemma ClientRank(k: Scenario, e: C.Client)
    requires ClientLocal(k, e)
    ensures C.Rank(e.state, e.session.Some?) == C.Rank(e.state, Resuming(k))
  {
    hide Transcript;
  }

  lemma ServerWeight(k: Scenario, e: S.Server, o: S.Oracle)
    requires ServerLocal(k, e) && ServerLocal(k, S.Drive(e, o)) && !ServerDone(e) && !ServerBlocked(e)
    requires !S.Drive(e, o).wait.Retry?
    ensures ServerShare(k, S.Drive(e, o)) < ServerShare(k, e)
  {
    hide S.Step, Slot, Transcript, NextSlot, S.Rank;
    if e.wait.Ok? {
      if e.state.Done? { assert false; }
      S.StepDescends(e, o);
      ServerRank(k, e);
      ServerRank(k, S.Drive(e, o));
    }
  }

  lemma ServerRank(k: Scenario, e: S.Server)
    requires ServerLocal(k, e)
    ensures S.Rank(e.state, e.session.Some?) == S.Rank(e.state, Resuming(k))
  {
    hide Transcript;
  }

  /** Driving the client: it comes closer to done, or spends a pause. */
  lemma ClientTurn(k: Scenario, p: Pair, asks: bool)
    requires PairInv(k, p)
    ensures var q := Turn(k, p, DriveClient(asks));
      if Enabled(p, DriveClient(asks)) then ClientShare(k, q.c) + 5 * q.pauses < ClientShare(k, p.c) + 5 * p.pauses else q == p
  {
    hide C.Step, C.Rank, InFlight, ClientKnows, ServerLocal;
    var o := if asks && p.pauses > 0 then ClientAsks(k) else ClientOracle(k);
    TurnInv(k, p, DriveClient(asks));
    if Enabled(p, DriveClient(asks)) {
      if C.Drive(p.c, o).wait.Retry? {
        QueueAgrees(k, false, p.c.wire.inbox, p.toClient + p.s.wire.pending, ClientPos(k, p.c), ServerPos(k, p.s));
        ClientRetries(k, p.c, o);
      } else {
        ClientWeight(k, p.c, o);
      }
    }
  }

  /** Only a step that is asked to comes back with Retry, and then it stays where it is. */
  lemma ClientRetries(k: Scenario, e: C.Client, o: C.Oracle)
    requires Honest(k) && ClientLocal(k, e) && InboxAgrees(k, false, e.wire.inbox, ClientPos(k, e))
    requires (o == ClientOracle(k) || o == ClientAsks(k)) && C.Drive(e, o).wait.Retry?
    ensures o == ClientAsks(k) && e.wait.Ok? && C.Drive(e, o) == e.Stay(Retry)
  {
    hide ClientKnows, InboxAgrees, Transcript, Honest;
  }

  lemma ServerTurn(k: Scenario, p: Pair, asks: bool)
    requires PairInv(k, p)
    ensures var q := Turn(k, p, DriveServer(asks));
      if Enabled(p, DriveServer(asks)) then ServerShare(k, q.s) + 5 * q.pauses < ServerShare(k, p.s) + 5 * p.pauses else q == p
  {
    hide S.Step, S.Rank, InFlight, ServerKnows, ClientLocal;
    var o := if asks && p.pauses > 0 then ServerAsks(k) else ServerOracle(k);
    TurnInv(k, p, DriveServer(asks));
    if Enabled(p, DriveServer(asks)) {
      if S.Drive(p.s, o).wait.Retry? {
        QueueAgrees(k, true, p.s.wire.inbox, p.toServer + p.c.wire.pending, ServerPos(k, p.s), ClientPos(k, p.c));
        ServerRetries(k, p.s, o);
      } else {
        ServerWeight(k, p.s, o);
      }
    }
  }

  lemma ServerRetries(k: Scenario, e: S.Server, o: S.Oracle)
    requires Honest(k) && ServerLocal(k, e) && InboxAgrees(k, true, e.wire.inbox, ServerPos(k, e))
    requires (o == ServerOracle(k) || o == ServerAsks(k)) && S.Drive(e, o).wait.Retry?
    ensures o == ServerAsks(k) && e.wait.Ok? && S.Drive(e, o) == e.Stay(Retry)
  {
    hide ServerKnows, InboxAgrees, Transcript, Honest;
  }

  /** Everything that happens lowers the measure; any other move changes nothing. */
  lemma TurnDescends(k: Scenario, p: Pair, m: Move)
    requires PairInv(k, p)
    ensures if Enabled(p, m) then Measure(k, Turn(k, p, m)) < Measure(k, p) else Turn(k, p, m) == p
  {
    hide C.Drive, S.Drive, ClientShare, ServerShare, Outstanding, ClientLocal, ServerLocal, Round, Sent;
    match m
    case DriveClient(asks) =>
      ClientTurn(k, p, asks);
      ClientRounds(k, p, asks);
    case DriveServer(asks) =>
      ServerTurn(k, p, asks);
      ServerRounds(k, p, asks);
    case ToClient =>
      if p.toClient != [] { ArrivesAtClient(k, p); }
    case ToServer =>
      if p.toServer != [] { ArrivesAtServer(k, p); }
  }

  lemma ClientRounds(k: Scenario, p: Pair, asks: bool)
    requires PairInv(k, p)
    ensures var q := Turn(k, p, DriveClient(asks));
      q.s == p.s && q.toClient == p.toClient &&
      Outstanding(k, true, ClientPos(k, q.c), q.c.wire.pending, q.toServer)
      == Outstanding(k, true, ClientPos(k, p.c), p.c.wire.pending, p.toServer)
  {
    hide C.Drive, InFlight, Outstanding, ClientLocal, ServerLocal, InboxAgrees, Round, Sent;
    var q := Turn(k, p, DriveClient(asks));
    QueueAgrees(k, false, p.c.wire.inbox, p.toClient + p.s.wire.pending, ClientPos(k, p.c), ServerPos(k, p.s));
    ClientDrives(k, p.c, if asks && p.pauses > 0 then ClientAsks(k) else ClientOracle(k));
    RoundOutstanding(k, true, p.c.wait.Flush?, p.c.wire, q.c.wire, ClientPos(k, p.c), ClientPos(k, q.c), p.toServer);
  }

  lemma ServerRounds(k: Scenario, p: Pair, asks: bool)
    requires PairInv(k, p)
    ensures var q := Turn(k, p, DriveServer(asks));
      q.c == p.c && q.toServer == p.toServer &&
      Outstanding(k, false, ServerPos(k, q.s), q.s.wire.pending, q.toClient)
      == Outstanding(k, false, ServerPos(k, p.s), p.s.wire.pending, p.toClient)
  {
    hide S.Drive, InFlight, Outstanding, ClientLocal, ServerLocal, InboxAgrees, Round, Sent;
    var q := Turn(k, p, DriveServer(asks));
    QueueAgrees(k, true, p.s.wire.inbox, p.toServer + p.c.wire.pending, ServerPos(k, p.s), ClientPos(k, p.c));
    ServerDrives(k, p.s, if asks && p.pauses > 0 then ServerAsks(k) else ServerOracle(k));
    RoundOutstanding(k, false, p.s.wait.Flush?, p.s.wire, q.s.wire, ServerPos(k, p.s), ServerPos(k, q.s), p.toClient);
  }

  lemma ArrivesAtClient(k: Scenario, p: Pair)
    requires p.toClient != []
    ensures Measure(k, Turn(k, p, ToClient)) < Measure(k, p)
  {
    hide C.Rank, S.Rank, Records, WaitWeight, ServerPos, Resuming;
    ArrivalWeight(p.c.wire, p.c.wait, p.toClient[0]);
    assert ClientPos(k, Turn(k, p, ToClient).c) == ClientPos(k, p.c);
  }

  lemma ArrivesAtServer(k: Scenario, p: Pair)
    requires p.toServer != []
    ensures Measure(k, Turn(k, p, ToServer)) < Measure(k, p)
  {
    hide C.Rank, S.Rank, Records, WaitWeight, ClientPos, Resuming;
    ArrivalWeight(p.s.wire, p.s.wait, p.toServer[0]);
    assert ServerPos(k, Turn(k, p, ToServer).s) == ServerPos(k, p.s);
  }

  /** How many turns of a schedule change something. */
  function Moved(k: Scenario, p: Pair, schedule: seq<Move>): nat {
    if schedule == [] then 0
    else
      var n := |schedule| - 1;
      Moved(k, p, schedule[..n]) + (if Enabled(Run(k, p, schedule[..n]), schedule[n]) then 1 else 0)
  }

  /** No schedule can move for ever. */
  lemma {:induction false} MovesAreBounded(k: Scenario, p: Pair, schedule: seq<Move>)
    requires Honest(k) && Initial(k, p)
    ensures Moved(k, p, schedule) + Measure(k, Run(k, p, schedule)) <= Measure(k, p)
  {
    hide PairInv, Turn, Measure, Enabled;
    if schedule != [] {
      var n := |schedule| - 1;
      MovesAreBounded(k, p, schedule[..n]);
      RunInv(k, p, schedule[..n]);
      TurnDescends(k, Run(k, p, schedule[..n]), schedule[n]);
    }
  }

  /** The handshake completes: a schedule after which nothing can happen has brought both sides
      to state_done, with one transcript, one master secret and empty queues. */
  lemma HandshakeCompletes(k: Scenario, p: Pair, schedule: seq<Move>)
    requires Honest(k) && Initial(k, p)
    requires Still(Run(k, p, schedule))
    ensures var q := Run(k, p, schedule);
            && q.c.state.Done? && q.s.state.Done?
            && q.c.wire.transcript == q.s.wire.transcript == Transcript(k, Length(k))
            && q.c.master == q.s.master
            && q.c.wire.inbox == [] && q.s.wire.inbox == [] && q.toClient == [] && q.toServer == []
  {
    var q := Run(k, p, schedule);
    assert PairInv(k, q) by { RunInv(k, p, schedule); }
    NoDeadlock(k, q);
    hide Run;
    BothDone(k, q);
  }

  lemma BothDone(k: Scenario, q: Pair)
    requires PairInv(k, q) && ClientDone(q.c) && ServerDone(q.s)
    ensures q.c.wire.transcript == q.s.wire.transcript == Transcript(k, Length(k))
    ensures q.c.master == q.s.master && q.c.wire.inbox == [] && q.s.wire.inbox == []
  {
    hide Transcript, Slot, Agreed, Records;
    RecordsEmpty(k, true, Length(k));
    RecordsEmpty(k, false, Length(k));
  }

  // ------------------------------------------------------------------ the excluded scenarios

  /** A server that insists on a certificate rejects the empty Certificate of a client
      without one. */
  lemma MissingCertificateIsRejected(k: Scenario, e: S.Server)
    requires e.state.ReadClientCertificate? && e.wait.Ok? && e.neg.certRequest && e.cfg.failIfNoPeerCert
    requires e.wire.Next() == Some(Certificate(0))
    ensures S.Drive(e, ServerOracle(k)).wait.Error?
  {
  }
}
