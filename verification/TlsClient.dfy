/**
  The client handshake of handshake_client.cc for TLS 1.2 and below: one function for
  each do_ step, and the loop that runs them.
 */
module TlsClient {
  import opened Options
  import opened TlsMessages

  datatype State =
    | StartConnect
    | EnterEarlyData
    | ReadHelloVerifyRequest
    | ReadServerHello
    | Tls13
    | ReadServerCertificate
    | ReadCertificateStatus
    | VerifyServerCertificate
    | ReadServerKeyExchange
    | ReadCertificateRequest
    | ReadServerHelloDone
    | SendClientCertificate
    | SendClientKeyExchange
    | SendClientCertificateVerify
    | SendClientFinished
    | FinishFlight
    | ReadSessionTicket
    | ProcessChangeCipherSpec
    | ReadServerFinished
    | FinishClientHandshake
    | Done

  /** What a step does not decide itself: ok is the conjunction of its decoding,
      cryptographic and allocation checks, pause says a callback asked to be called again. */
  datatype Oracle = Oracle(ok: bool, pause: bool, verify: Verify, sessionUsable: bool, freshId: nat, premaster: nat)

  /** falseStart: the mode is on and can_false_start holds. earlyData: it is enabled, and the
      session offered allows it. certs: the length of the client's own chain. */
  datatype Config = Config(dtls: bool, falseStart: bool, earlyData: bool, certs: nat)

  datatype Negotiated = Negotiated(tls13: bool, cipher: Cipher, extensions: Extensions, certRequest: bool)

  /** The fields of SSL and SSL_HANDSHAKE the client steps use. */
  datatype Client = Client(state: State, wait: Wait, session: Option<Session>, sessionId: nat, master: Master,
                           cfg: Config, neg: Negotiated, wire: Wire) {

    function Go(s: State): Client {
      this.(state := s, wait := Ok)
    }

    function Await(s: State, w: Wait): Client {
      this.(state := s, wait := w)
    }

    function Stay(w: Wait): Client {
      this.(wait := w)
    }

    function Send(m: Message): Client {
      this.(wire := wire.Send(m))
    }

    function Accept(m: Message): Client {
      this.(wire := wire.Accept(m))
    }

    function Note(e: Event): Client {
      this.(wire := wire.Note(e))
    }

    /** early_data_offered, until the ServerHello is read. */
    predicate OffersEarlyData() {
      cfg.earlyData && !cfg.dtls && session.Some?
    }
  }

  function DoStartConnect(c: Client, o: Oracle): Client {
    if !o.ok then c.Stay(Error)
    else
      var session := if c.session.Some? && o.sessionUsable then c.session else None;
      var id := if session.Some? && session.value.id != 0 then session.value.id else o.freshId;
      c.(session := session, sessionId := id).Send(ClientHello(id)).Await(EnterEarlyData, Flush)
  }

  function DoEnterEarlyData(c: Client, o: Oracle): Client {
    if c.cfg.dtls then c.Go(ReadHelloVerifyRequest)
    else if !c.OffersEarlyData() then c.Go(ReadServerHello)
    else if !o.ok then c.Stay(Error)
    else c.(wire := c.wire.SendChangeCipherSpec()).Note(EnteredEarlyData).Await(ReadServerHello, EarlyReturn)
  }

  function DoReadHelloVerifyRequest(c: Client, o: Oracle): Client {
    match c.wire.Next()
    case None => c.Stay(ReadMessage)
    case Some(m) =>
      if !m.HelloVerifyRequest? then c.Go(ReadServerHello)
      else if !o.ok then c.Stay(Error)
      // The transcript restarts with the second ClientHello.
      else c.(wire := c.wire.(inbox := c.wire.Rest(), transcript := [])).Send(ClientHello(c.sessionId)).Await(ReadServerHello, Flush)
  }

  function DoReadServerHello(c: Client, o: Oracle): Client {
    match c.wire.Next()
    case None => c.Stay(ReadMessage)
    case Some(m) =>
      if !m.ServerHello? || !o.ok then c.Stay(Error)
      else if m.tls13 then c.(neg := c.neg.(tls13 := true)).Go(Tls13)
      // A server of TLS 1.2 would not skip the early data.
      else if c.OffersEarlyData() then c.Stay(Error)
      else
        var resumed := c.session.Some? && c.session.value.id != 0 && m.sessionId == c.session.value.id;
        if !resumed && c.sessionId != 0 && m.sessionId == c.sessionId then c.Stay(Error)
        else if resumed && c.session.value.cipher != m.cipher then c.Stay(Error)
        else if m.extensions.status && !m.cipher.UsesCertificate() then c.Stay(Error)
        else
          c.(session := if resumed then c.session else None,
             master := if resumed then c.session.value.master else NoMaster,
             neg := Negotiated(false, m.cipher, m.extensions, false))
           .Accept(m)
           .Go(if resumed then ReadSessionTicket else ReadServerCertificate)
  }

  /** tls13_client_handshake as one opaque step. */
  function DoTls13(c: Client, o: Oracle): Client {
    if !o.ok then c.Stay(Error) else if o.pause then c.Stay(Retry) else c.Go(FinishClientHandshake)
  }

  function DoReadServerCertificate(c: Client, o: Oracle): Client {
    if !c.neg.cipher.UsesCertificate() then c.Go(ReadCertificateStatus)
    else
      match c.wire.Next()
      case None => c.Stay(ReadMessage)
      case Some(m) =>
        if !m.Certificate? || !o.ok || m.certs == 0 then c.Stay(Error)
        else c.Accept(m).Go(ReadCertificateStatus)
  }

  function DoReadCertificateStatus(c: Client, o: Oracle): Client {
    if !c.neg.extensions.status then c.Go(VerifyServerCertificate)
    else
      match c.wire.Next()
      case None => c.Stay(ReadMessage)
      case Some(m) =>
        // The server may have changed its mind.
        if !m.CertificateStatus? then c.Go(VerifyServerCertificate)
        else if !o.ok then c.Stay(Error)
        else c.Accept(m).Go(VerifyServerCertificate)
  }

  function DoVerifyServerCertificate(c: Client, o: Oracle): Client {
    if !c.neg.cipher.UsesCertificate() then c.Go(ReadServerKeyExchange)
    else
      match o.verify
      case VerifyOk => c.Note(VerifiedPeer).Go(ReadServerKeyExchange)
      case VerifyInvalid => c.Stay(Error)
      case VerifyRetry => c.Stay(Retry)
  }

  function DoReadServerKeyExchange(c: Client, o: Oracle): Client {
    match c.wire.Next()
    case None => c.Stay(ReadMessage)
    case Some(m) =>
      if !m.ServerKeyExchange? then
        if c.neg.cipher.UsesEcdhe() then c.Stay(Error) else c.Go(ReadCertificateRequest)
      else if c.neg.cipher.Rsa? || !o.ok then c.Stay(Error)
      else
        var c' := if c.neg.cipher.UsesCertificate() then c.Note(CheckedKeyExchangeSignature) else c;
        c'.Accept(m).Go(ReadCertificateRequest)
  }

  function DoReadCertificateRequest(c: Client, o: Oracle): Client {
    if !c.neg.cipher.UsesCertificate() then c.Go(ReadServerHelloDone)
    else
      match c.wire.Next()
      case None => c.Stay(ReadMessage)
      case Some(m) =>
        if m.ServerHelloDone? then c.Go(ReadServerHelloDone)
        else if !m.CertificateRequest? || !o.ok then c.Stay(Error)
        else c.(neg := c.neg.(certRequest := true)).Accept(m).Go(ReadServerHelloDone)
  }

  function DoReadServerHelloDone(c: Client, o: Oracle): Client {
    match c.wire.Next()
    case None => c.Stay(ReadMessage)
    case Some(m) =>
      if !m.ServerHelloDone? || !o.ok then c.Stay(Error) else c.Accept(m).Go(SendClientCertificate)
  }

  function DoSendClientCertificate(c: Client, o: Oracle): Client {
    if !c.neg.certRequest then c.Go(SendClientKeyExchange)
    else if !o.ok then c.Stay(Error)
    else if o.pause then c.Stay(Retry)
    else c.Send(Certificate(c.cfg.certs)).Go(SendClientKeyExchange)
  }

  function DoSendClientKeyExchange(c: Client, o: Oracle): Client {
    if !o.ok then c.Stay(Error)
    else
      var c' := c.Send(ClientKeyExchange(o.premaster)).Note(SentKeyExchange);
      // The master secret covers the transcript up to this message.
      c'.(master := Derived(o.premaster, c'.wire.transcript)).Go(SendClientCertificateVerify)
  }

  function DoSendClientCertificateVerify(c: Client, o: Oracle): Client {
    if !c.neg.certRequest || c.cfg.certs == 0 then c.Go(SendClientFinished)
    else if !o.ok then c.Stay(Error)
    else if o.pause then c.Stay(Retry)
    else c.Send(CertificateVerify).Go(SendClientFinished)
  }

  function DoSendClientFinished(c: Client, o: Oracle): Client {
    if !o.ok then c.Stay(Error)
    else if c.neg.extensions.channelId && o.pause then c.Stay(Retry)
    else
      var c0 := c.(wire := c.wire.SendChangeCipherSpec());
      var c1 := if c.neg.extensions.nextProto then c0.Send(NextProto) else c0;
      var c2 := if c.neg.extensions.channelId then c1.Send(ChannelId) else c1;
      c2.Send(Finished(Mac(c2.wire.transcript, false, c.master))).Note(SentFinished).Await(FinishFlight, Flush)
  }

  function DoFinishFlight(c: Client, o: Oracle): Client {
    if c.session.Some? then c.Go(FinishClientHandshake)
    else if !o.ok then c.Stay(Error)
    else if c.cfg.falseStart then c.Await(ReadSessionTicket, EarlyReturn)
    else c.Go(ReadSessionTicket)
  }

  function DoReadSessionTicket(c: Client, o: Oracle): Client {
    if !c.neg.extensions.ticket then c.Await(ProcessChangeCipherSpec, ReadChangeCipherSpec)
    else
      match c.wire.Next()
      case None => c.Stay(ReadMessage)
      case Some(m) =>
        if !m.NewSessionTicket? || !o.ok then c.Stay(Error)
        else if m.empty then
          c.(neg := c.neg.(extensions := c.neg.extensions.(ticket := false))).Accept(m).Await(ProcessChangeCipherSpec, ReadChangeCipherSpec)
        else
          // A renewed ticket replaces the session by a copy with a new id.
          var session := if c.session.Some? then Some(c.session.value.(id := o.freshId)) else None;
          c.(session := session).Accept(m).Await(ProcessChangeCipherSpec, ReadChangeCipherSpec)
  }

  function DoProcessChangeCipherSpec(c: Client, o: Oracle): Client {
    if !o.ok then c.Stay(Error) else c.Go(ReadServerFinished)
  }

  function DoReadServerFinished(c: Client, o: Oracle): Client {
    match c.wire.Next()
    case None => c.Stay(ReadMessage)
    case Some(m) =>
      if !m.Finished? || !o.ok || m.mac != Mac(c.wire.transcript, true, c.master) then c.Stay(Error)
      else c.Accept(m).Note(CheckedFinished).Go(if c.session.Some? then SendClientFinished else FinishClientHandshake)
  }

  function DoFinishClientHandshake(c: Client, o: Oracle): Client {
    if !o.ok then c.Stay(Error) else c.Go(Done)
  }

  /** One round of the switch in ssl_client_handshake. */
  function Step(c: Client, o: Oracle): Client {
    match c.state
    case StartConnect => DoStartConnect(c, o)
    case EnterEarlyData => DoEnterEarlyData(c, o)
    case ReadHelloVerifyRequest => DoReadHelloVerifyRequest(c, o)
    case ReadServerHello => DoReadServerHello(c, o)
    case Tls13 => DoTls13(c, o)
    case ReadServerCertificate => DoReadServerCertificate(c, o)
    case ReadCertificateStatus => DoReadCertificateStatus(c, o)
    case VerifyServerCertificate => DoVerifyServerCertificate(c, o)
    case ReadServerKeyExchange => DoReadServerKeyExchange(c, o)
    case ReadCertificateRequest => DoReadCertificateRequest(c, o)
    case ReadServerHelloDone => DoReadServerHelloDone(c, o)
    case SendClientCertificate => DoSendClientCertificate(c, o)
    case SendClientKeyExchange => DoSendClientKeyExchange(c, o)
    case SendClientCertificateVerify => DoSendClientCertificateVerify(c, o)
    case SendClientFinished => DoSendClientFinished(c, o)
    case FinishFlight => DoFinishFlight(c, o)
    case ReadSessionTicket => DoReadSessionTicket(c, o)
    case ProcessChangeCipherSpec => DoProcessChangeCipherSpec(c, o)
    case ReadServerFinished => DoReadServerFinished(c, o)
    case FinishClientHandshake => DoFinishClientHandshake(c, o)
    case Done => c.Stay(Ok)
  }

  /** One round of ssl_run_handshake: resolve what the machine waits for, or run it. */
  function Drive(c: Client, o: Oracle): Client {
    match c.wait
    case Ok => if c.state.Done? then c else Step(c, o)
    case Flush => c.(wire := c.wire.(pending := [])).Stay(Ok)
    case ReadMessage =>
      if c.wire.inbox == [] then c else if c.wire.inbox[0].ChangeCipherSpec? then c.Stay(Error) else c.Stay(Ok)
    case ReadChangeCipherSpec =>
      if c.wire.inbox == [] then c
      else if c.wire.inbox[0].ChangeCipherSpec? then c.(wire := c.wire.(inbox := c.wire.Rest())).Stay(Ok)
      else c.Stay(Error)
    case Retry => c.Stay(Ok)
    case EarlyReturn => c.Stay(Ok)
    case Error => c
  }

  // ------------------------------------------------------------------ termination

  /** How far the machine is from done. The order of the last states depends on whether
      there is a session to resume; that is what breaks the cycle of the state graph. */
  function Rank(s: State, resuming: bool): nat {
    match s
    case StartConnect => 20
    case EnterEarlyData => 19
    case ReadHelloVerifyRequest => 18
    case ReadServerHello => 17
    case Tls13 => 16
    case ReadServerCertificate => 15
    case ReadCertificateStatus => 14
    case VerifyServerCertificate => 13
    case ReadServerKeyExchange => 12
    case ReadCertificateRequest => 11
    case ReadServerHelloDone => 10
    case SendClientCertificate => 9
    case SendClientKeyExchange => 8
    case SendClientCertificateVerify => 7
    case SendClientFinished => if resuming then 3 else 6
    case FinishFlight => if resuming then 2 else 5
    case ReadSessionTicket => if resuming then 6 else 4
    case ProcessChangeCipherSpec => if resuming then 5 else 3
    case ReadServerFinished => if resuming then 4 else 2
    case FinishClientHandshake => 1
    case Done => 0
  }

  ghost predicate Descends(c: Client, c': Client) {
    match c'.wait
    case Error => true
    case Retry => true
    case ReadMessage => c.wire.Next().None? && c' == c.Stay(ReadMessage)
    case _ => Rank(c'.state, c'.session.Some?) < Rank(c.state, c.session.Some?)
  }

  lemma DescendsHello(c: Client, o: Oracle)
    requires
      || c.state.StartConnect? || c.state.EnterEarlyData? || c.state.ReadHelloVerifyRequest?
      || c.state.ReadServerHello? || c.state.Tls13?
    ensures Descends(c, Step(c, o))
  {
    hide DoReadServerCertificate, DoReadCertificateStatus, DoVerifyServerCertificate, DoReadServerKeyExchange,
      DoReadCertificateRequest, DoReadServerHelloDone, DoSendClientCertificate, DoSendClientKeyExchange,
      DoSendClientCertificateVerify, DoSendClientFinished, DoFinishFlight, DoReadSessionTicket,
      DoProcessChangeCipherSpec, DoReadServerFinished, DoFinishClientHandshake;
  }

  lemma DescendsServer(c: Client, o: Oracle)
    requires
      || c.state.ReadServerCertificate? || c.state.ReadCertificateStatus? || c.state.VerifyServerCertificate?
      || c.state.ReadServerKeyExchange? || c.state.ReadCertificateRequest? || c.state.ReadServerHelloDone?
    ensures Descends(c, Step(c, o))
  {
    hide DoStartConnect, DoEnterEarlyData, DoReadHelloVerifyRequest, DoReadServerHello, DoTls13,
      DoSendClientCertificate, DoSendClientKeyExchange, DoSendClientCertificateVerify, DoSendClientFinished,
      DoFinishFlight, DoReadSessionTicket, DoProcessChangeCipherSpec, DoReadServerFinished, DoFinishClientHandshake;
  }

  lemma DescendsClient(c: Client, o: Oracle)
    requires
      || c.state.SendClientCertificate? || c.state.SendClientKeyExchange?
      || c.state.SendClientCertificateVerify? || c.state.SendClientFinished?
    ensures Descends(c, Step(c, o))
  {
    hide DoStartConnect, DoEnterEarlyData, DoReadHelloVerifyRequest, DoReadServerHello, DoTls13,
      DoReadServerCertificate, DoReadCertificateStatus, DoVerifyServerCertificate, DoReadServerKeyExchange,
      DoReadCertificateRequest, DoReadServerHelloDone, DoFinishFlight, DoReadSessionTicket, DoProcessChangeCipherSpec,
      DoReadServerFinished, DoFinishClientHandshake;
  }

  lemma DescendsFinish(c: Client, o: Oracle)
    requires
      || c.state.FinishFlight? || c.state.ReadSessionTicket? || c.state.ProcessChangeCipherSpec?
      || c.state.ReadServerFinished? || c.state.FinishClientHandshake?
    ensures Descends(c, Step(c, o))
  {
    hide DoStartConnect, DoEnterEarlyData, DoReadHelloVerifyRequest, DoReadServerHello, DoTls13,
      DoReadServerCertificate, DoReadCertificateStatus, DoVerifyServerCertificate, DoReadServerKeyExchange,
      DoReadCertificateRequest, DoReadServerHelloDone, DoSendClientCertificate, DoSendClientKeyExchange,
      DoSendClientCertificateVerify, DoSendClientFinished;
  }

  /** Every round brings the machine closer to done, unless it stops with an error, for
      a callback, or for a message that is not there. */
  lemma StepDescends(c: Client, o: Oracle)
    requires !c.state.Done?
    ensures Descends(c, Step(c, o))
  {
    hide Step;
    if Rank(c.state, true) >= 16 { DescendsHello(c, o); }
    else if Rank(c.state, true) >= 10 { DescendsServer(c, o); }
    else if Rank(c.state, true) >= 7 || c.state.SendClientFinished? { DescendsClient(c, o); }
    else { DescendsFinish(c, o); }
  }

  /** What ssl_client_handshake leaves, when the environment answers by env. */
  function Loop(c: Client, env: Client -> Oracle): (r: Client)
    ensures r.state.Done? || !r.wait.Ok?
    decreases Rank(c.state, c.session.Some?)
  {
    if c.state.Done? then c.Stay(Ok)
    else
      var c' := Step(c, env(c));
      if !c'.wait.Ok? then c' else (StepDescends(c, env(c)); Loop(c', env))
  }

  /** An SSL_HANDSHAKE on the client's side. Each method is a do_ step: it assigns the fields it
      changes, and wait holds what it returns. */
  class ClientHandshake {
    const cfg: Config
    var state: State
    var wait: Wait
    var session: Option<Session>
    var sessionId: nat
    var master: Master
    var neg: Negotiated
    var wire: Wire

    function Hs(): Client
      reads this
    {
      Client(state, wait, session, sessionId, master, cfg, neg, wire)
    }

    constructor (c: Client)
      ensures Hs() == c
    {
      cfg, state, wait, session := c.cfg, c.state, c.wait, c.session;
      sessionId, master, neg, wire := c.sessionId, c.master, c.neg, c.wire;
    }

    method StartConnectStep(o: Oracle)
      modifies this
      ensures Hs() == DoStartConnect(old(Hs()), o)
    {
      if !o.ok { wait := Error; return; }
      if session.Some? && !o.sessionUsable { session := None; }
      if session.Some? && session.value.id != 0 { sessionId := session.value.id; } else { sessionId := o.freshId; }
      wire := wire.Send(ClientHello(sessionId));
      state, wait := EnterEarlyData, Flush;
    }

    method EnterEarlyDataStep(o: Oracle)
      modifies this
      ensures Hs() == DoEnterEarlyData(old(Hs()), o)
    {
      if cfg.dtls {
        state, wait := ReadHelloVerifyRequest, Ok;
        return;
      }
      if !(cfg.earlyData && session.Some?) {
        state, wait := ReadServerHello, Ok;
        return;
      }
      if !o.ok { wait := Error; return; }
      wire := wire.SendChangeCipherSpec().Note(EnteredEarlyData);
      state, wait := ReadServerHello, EarlyReturn;
    }

    method ReadHelloVerifyRequestStep(o: Oracle)
      modifies this
      ensures Hs() == DoReadHelloVerifyRequest(old(Hs()), o)
    {
      var msg := wire.Next();
      if msg.None? { wait := ReadMessage; return; }
      if !msg.value.HelloVerifyRequest? { state, wait := ReadServerHello, Ok; return; }
      if !o.ok { wait := Error; return; }
      wire := wire.(inbox := wire.Rest(), transcript := []);
      wire := wire.Send(ClientHello(sessionId));
      state, wait := ReadServerHello, Flush;
    }

    method ReadServerHelloStep(o: Oracle)
      modifies this
      ensures Hs() == DoReadServerHello(old(Hs()), o)
    {
      var msg := wire.Next();
      if msg.None? { wait := ReadMessage; return; }
      var hello := msg.value;
      if !hello.ServerHello? || !o.ok { wait := Error; return; }
      if hello.tls13 {
        neg := neg.(tls13 := true);
        state, wait := Tls13, Ok;
        return;
      }
      if cfg.earlyData && !cfg.dtls && session.Some? { wait := Error; return; }
      var resumed := session.Some? && session.value.id != 0 && hello.sessionId == session.value.id;
      if !resumed && sessionId != 0 && hello.sessionId == sessionId { wait := Error; return; }
      if resumed && session.value.cipher != hello.cipher { wait := Error; return; }
      if hello.extensions.status && !hello.cipher.UsesCertificate() { wait := Error; return; }
      neg := Negotiated(false, hello.cipher, hello.extensions, false);
      if resumed {
        master := session.value.master;
        state := ReadSessionTicket;
      } else {
        session, master := None, NoMaster;
        state := ReadServerCertificate;
      }
      wire := wire.Accept(hello);
      wait := Ok;
    }

    method Tls13Step(o: Oracle)
      modifies this
      ensures Hs() == DoTls13(old(Hs()), o)
    {
      if !o.ok { wait := Error; return; }
      if o.pause { wait := Retry; return; }
      state, wait := FinishClientHandshake, Ok;
    }

    method ReadServerCertificateStep(o: Oracle)
      modifies this
      ensures Hs() == DoReadServerCertificate(old(Hs()), o)
    {
      if neg.cipher.UsesCertificate() {
        var msg := wire.Next();
        if msg.None? { wait := ReadMessage; return; }
        if !msg.value.Certificate? || !o.ok || msg.value.certs == 0 { wait := Error; return; }
        wire := wire.Accept(msg.value);
      }
      state, wait := ReadCertificateStatus, Ok;
    }

    method ReadCertificateStatusStep(o: Oracle)
      modifies this
      ensures Hs() == DoReadCertificateStatus(old(Hs()), o)
    {
      if neg.extensions.status {
        var msg := wire.Next();
        if msg.None? { wait := ReadMessage; return; }
        if msg.value.CertificateStatus? {
          if !o.ok { wait := Error; return; }
          wire := wire.Accept(msg.value);
        }
      }
      state, wait := VerifyServerCertificate, Ok;
    }

    method VerifyServerCertificateStep(o: Oracle)
      modifies this
      ensures Hs() == DoVerifyServerCertificate(old(Hs()), o)
    {
      if neg.cipher.UsesCertificate() {
        match o.verify {
          case VerifyOk =>
          case VerifyInvalid => wait := Error; return;
          case VerifyRetry => wait := Retry; return;
        }
        wire := wire.Note(VerifiedPeer);
      }
      state, wait := ReadServerKeyExchange, Ok;
    }

    method ReadServerKeyExchangeStep(o: Oracle)
      modifies this
      ensures Hs() == DoReadServerKeyExchange(old(Hs()), o)
    {
      var msg := wire.Next();
      if msg.None? { wait := ReadMessage; return; }
      if !msg.value.ServerKeyExchange? {
        if neg.cipher.UsesEcdhe() { wait := Error; return; }
        state, wait := ReadCertificateRequest, Ok;
        return;
      }
      if neg.cipher.Rsa? || !o.ok { wait := Error; return; }
      if neg.cipher.UsesCertificate() { wire := wire.Note(CheckedKeyExchangeSignature); }
      wire := wire.Accept(msg.value);
      state, wait := ReadCertificateRequest, Ok;
    }

    method ReadCertificateRequestStep(o: Oracle)
      modifies this
      ensures Hs() == DoReadCertificateRequest(old(Hs()), o)
    {
      if neg.cipher.UsesCertificate() {
        var msg := wire.Next();
        if msg.None? { wait := ReadMessage; return; }
        if !msg.value.ServerHelloDone? {
          if !msg.value.CertificateRequest? || !o.ok { wait := Error; return; }
          neg := neg.(certRequest := true);
          wire := wire.Accept(msg.value);
        }
      }
      state, wait := ReadServerHelloDone, Ok;
    }

    method ReadServerHelloDoneStep(o: Oracle)
      modifies this
      ensures Hs() == DoReadServerHelloDone(old(Hs()), o)
    {
      var msg := wire.Next();
      if msg.None? { wait := ReadMessage; return; }
      if !msg.value.ServerHelloDone? || !o.ok { wait := Error; return; }
      wire := wire.Accept(msg.value);
      state, wait := SendClientCertificate, Ok;
    }

    method SendClientCertificateStep(o: Oracle)
      modifies this
      ensures Hs() == DoSendClientCertificate(old(Hs()), o)
    {
      if neg.certRequest {
        if !o.ok { wait := Error; return; }
        if o.pause { wait := Retry; return; }
        wire := wire.Send(Certificate(cfg.certs));
      }
      state, wait := SendClientKeyExchange, Ok;
    }

    method SendClientKeyExchangeStep(o: Oracle)
      modifies this
      ensures Hs() == DoSendClientKeyExchange(old(Hs()), o)
    {
      if !o.ok { wait := Error; return; }
      wire := wire.Send(ClientKeyExchange(o.premaster));
      wire := wire.Note(SentKeyExchange);
      master := Derived(o.premaster, wire.transcript);
      state, wait := SendClientCertificateVerify, Ok;
    }

    method SendClientCertificateVerifyStep(o: Oracle)
      modifies this
      ensures Hs() == DoSendClientCertificateVerify(old(Hs()), o)
    {
      if neg.certRequest && cfg.certs > 0 {
        if !o.ok { wait := Error; return; }
        if o.pause { wait := Retry; return; }
        wire := wire.Send(CertificateVerify);
      }
      state, wait := SendClientFinished, Ok;
    }

    method SendClientFinishedStep(o: Oracle)
      modifies this
      ensures Hs() == DoSendClientFinished(old(Hs()), o)
    {
      if !o.ok { wait := Error; return; }
      if neg.extensions.channelId && o.pause { wait := Retry; return; }
      wire := wire.SendChangeCipherSpec();
      if neg.extensions.nextProto { wire := wire.Send(NextProto); }
      if neg.extensions.channelId { wire := wire.Send(ChannelId); }
      wire := wire.Send(Finished(Mac(wire.transcript, false, master)));
      wire := wire.Note(SentFinished);
      state, wait := FinishFlight, Flush;
    }

    method FinishFlightStep(o: Oracle)
      modifies this
      ensures Hs() == DoFinishFlight(old(Hs()), o)
    {
      if session.Some? { state, wait := FinishClientHandshake, Ok; return; }
      if !o.ok { wait := Error; return; }
      state := ReadSessionTicket;
      wait := if cfg.falseStart then EarlyReturn else Ok;
    }

    method ReadSessionTicketStep(o: Oracle)
      modifies this
      ensures Hs() == DoReadSessionTicket(old(Hs()), o)
    {
      if neg.extensions.ticket {
        var msg := wire.Next();
        if msg.None? { wait := ReadMessage; return; }
        if !msg.value.NewSessionTicket? || !o.ok { wait := Error; return; }
        if msg.value.empty {
          neg := neg.(extensions := neg.extensions.(ticket := false));
        } else if session.Some? {
          session := Some(session.value.(id := o.freshId));
        }
        wire := wire.Accept(msg.value);
      }
      state, wait := ProcessChangeCipherSpec, ReadChangeCipherSpec;
    }

    method ProcessChangeCipherSpecStep(o: Oracle)
      modifies this
      ensures Hs() == DoProcessChangeCipherSpec(old(Hs()), o)
    {
      if !o.ok { wait := Error; return; }
      state, wait := ReadServerFinished, Ok;
    }

    method ReadServerFinishedStep(o: Oracle)
      modifies this
      ensures Hs() == DoReadServerFinished(old(Hs()), o)
    {
      var msg := wire.Next();
      if msg.None? { wait := ReadMessage; return; }
      if !msg.value.Finished? || !o.ok || msg.value.mac != Mac(wire.transcript, true, master) { wait := Error; return; }
      wire := wire.Accept(msg.value);
      wire := wire.Note(CheckedFinished);
      if session.Some? { state := SendClientFinished; } else { state := FinishClientHandshake; }
      wait := Ok;
    }

    method FinishClientHandshakeStep(o: Oracle)
      modifies this
      ensures Hs() == DoFinishClientHandshake(old(Hs()), o)
    {
      if !o.ok { wait := Error; return; }
      state, wait := Done, Ok;
    }

    /** The switch of ssl_client_handshake. */
    method Dispatch(o: Oracle)
      modifies this
      ensures Hs() == Step(old(Hs()), o)
    {
      hide DoStartConnect, DoEnterEarlyData, DoReadHelloVerifyRequest, DoReadServerHello, DoTls13,
        DoReadServerCertificate, DoReadCertificateStatus, DoVerifyServerCertificate, DoReadServerKeyExchange,
        DoReadCertificateRequest, DoReadServerHelloDone, DoSendClientCertificate, DoSendClientKeyExchange,
        DoSendClientCertificateVerify, DoSendClientFinished, DoFinishFlight, DoReadSessionTicket,
        DoProcessChangeCipherSpec, DoReadServerFinished, DoFinishClientHandshake;
      match state
      case StartConnect => StartConnectStep(o);
      case EnterEarlyData => EnterEarlyDataStep(o);
      case ReadHelloVerifyRequest => ReadHelloVerifyRequestStep(o);
      case ReadServerHello => ReadServerHelloStep(o);
      case Tls13 => Tls13Step(o);
      case ReadServerCertificate => ReadServerCertificateStep(o);
      case ReadCertificateStatus => ReadCertificateStatusStep(o);
      case VerifyServerCertificate => VerifyServerCertificateStep(o);
      case ReadServerKeyExchange => ReadServerKeyExchangeStep(o);
      case ReadCertificateRequest => ReadCertificateRequestStep(o);
      case ReadServerHelloDone => ReadServerHelloDoneStep(o);
      case SendClientCertificate => SendClientCertificateStep(o);
      case SendClientKeyExchange => SendClientKeyExchangeStep(o);
      case SendClientCertificateVerify => SendClientCertificateVerifyStep(o);
      case SendClientFinished => SendClientFinishedStep(o);
      case FinishFlight => FinishFlightStep(o);
      case ReadSessionTicket => ReadSessionTicketStep(o);
      case ProcessChangeCipherSpec => ProcessChangeCipherSpecStep(o);
      case ReadServerFinished => ReadServerFinishedStep(o);
      case FinishClientHandshake => FinishClientHandshakeStep(o);
      case Done => wait := Ok;
    }

    /** ssl_client_handshake. It ends because every round lowers the rank. */
    method Handshake(env: Client -> Oracle)
      modifies this
      ensures Hs() == Loop(old(Hs()), env)
    {
      hide Step, Rank;
      while !state.Done?
        invariant Loop(Hs(), env) == Loop(old(Hs()), env)
        decreases Rank(state, session.Some?)
      {
        ghost var c := Hs();
        StepDescends(c, env(c));
        Dispatch(env(Hs()));
        if !wait.Ok? { return; }
      }
      wait := Ok;
    }

    /** One round of ssl_run_handshake: what the machine waits for is done, or the machine runs. */
    method Round(o: Oracle)
      modifies this
      ensures Hs() == Drive(old(Hs()), o)
    {
      hide Step;
      match wait
      case Ok => if !state.Done? { Dispatch(o); }
      case Flush =>
        wire := wire.(pending := []);
        wait := Ok;
      case ReadMessage =>
        if wire.inbox != [] {
          if wire.inbox[0].ChangeCipherSpec? { wait := Error; } else { wait := Ok; }
        }
      case ReadChangeCipherSpec =>
        if wire.inbox != [] {
          if wire.inbox[0].ChangeCipherSpec? {
            wire := wire.(inbox := wire.Rest());
            wait := Ok;
          } else {
            wait := Error;
          }
        }
      case Retry => wait := Ok;
      case EarlyReturn => wait := Ok;
      case Error =>
    }
  }

  // ------------------------------------------------------------------ runs against any peer

  /** What happens to a client: a record arrives, or it is driven one round. */
  datatype Act = Arrive(item: Item) | Turn(oracle: Oracle)

  function Apply(c: Client, a: Act): Client {
    match a
    case Arrive(item) => c.(wire := c.wire.(inbox := c.wire.inbox + [item]))
    case Turn(o) => Drive(c, o)
  }

  function Run(c: Client, acts: seq<Act>): Client {
    if acts == [] then c
    else
      var n := |acts| - 1;
      Apply(Run(c, acts[..n]), acts[n])
  }

  predicate Fresh(c: Client) {
    c.state.StartConnect? && !c.neg.tls13 && c.wire.events == []
  }

  /** The states before the resumption decision. */
  predicate Undecided(s: State) {
    s.StartConnect? || s.EnterEarlyData? || s.ReadHelloVerifyRequest? || s.ReadServerHello?
  }

  /** The states only a full handshake passes, up to the one that sends ClientKeyExchange. */
  predicate BeforeKeyExchange(s: State) {
    || s.ReadServerCertificate? || s.ReadCertificateStatus? || s.VerifyServerCertificate? || s.ReadServerKeyExchange?
    || s.ReadCertificateRequest? || s.ReadServerHelloDone? || s.SendClientCertificate? || s.SendClientKeyExchange?
  }

  predicate BeforeVerify(s: State) {
    s.ReadServerCertificate? || s.ReadCertificateStatus? || s.VerifyServerCertificate?
  }

  /** The Finished messages sent and checked by the time a state is reached. */
  function FinishedBy(s: State, resuming: bool): seq<Event> {
    match s
    case SendClientFinished => if resuming then [CheckedFinished] else []
    case FinishFlight => if resuming then [CheckedFinished, SentFinished] else [SentFinished]
    case ReadSessionTicket => if resuming then [] else [SentFinished]
    case ProcessChangeCipherSpec => if resuming then [] else [SentFinished]
    case ReadServerFinished => if resuming then [] else [SentFinished]
    case FinishClientHandshake => if resuming then [CheckedFinished, SentFinished] else [SentFinished, CheckedFinished]
    case Done => if resuming then [CheckedFinished, SentFinished] else [SentFinished, CheckedFinished]
    case _ => []
  }

  /** What every reachable client satisfies. */
  ghost predicate Inv(c: Client) {
    && (c.neg.tls13 <==> c.state.Tls13? || (c.neg.tls13 && (c.state.FinishClientHandshake? || c.state.Done?)))
    && (!c.neg.tls13 ==> FinishedEvents(c.wire.events) == FinishedBy(c.state, c.session.Some?))
    && (BeforeKeyExchange(c.state) || c.state.SendClientCertificateVerify? ==> c.session.None?)
    && (c.neg.tls13 || c.session.Some? || Undecided(c.state) || BeforeKeyExchange(c.state) ==> SentKeyExchange !in c.wire.events)
    && (c.neg.cipher.UsesCertificate() ==> Precedes(c.wire.events, VerifiedPeer, SentKeyExchange))
    && (c.neg.cipher.Ecdhe? ==> Precedes(c.wire.events, CheckedKeyExchangeSignature, SentKeyExchange))
    && (BeforeKeyExchange(c.state) && !BeforeVerify(c.state) && c.neg.cipher.UsesCertificate() ==> VerifiedPeer in c.wire.events)
    && (BeforeKeyExchange(c.state) && !BeforeVerify(c.state) && !c.state.ReadServerKeyExchange? && c.neg.cipher.Ecdhe? ==>
        CheckedKeyExchangeSignature in c.wire.events)
    && (EnteredEarlyData in c.wire.events ==> c.neg.tls13 || (c.state.ReadServerHello? && c.OffersEarlyData()))
  }

  lemma InvHello(c: Client, o: Oracle)
    requires Inv(c)
    requires
      || c.state.StartConnect? || c.state.EnterEarlyData? || c.state.ReadHelloVerifyRequest?
      || c.state.ReadServerHello? || c.state.Tls13?
    ensures Inv(Step(c, o))
  {
    hide FinishedEvents, DoReadServerCertificate, DoReadCertificateStatus, DoVerifyServerCertificate,
      DoReadServerKeyExchange, DoReadCertificateRequest, DoReadServerHelloDone, DoSendClientCertificate,
      DoSendClientKeyExchange, DoSendClientCertificateVerify, DoSendClientFinished, DoFinishFlight,
      DoReadSessionTicket, DoProcessChangeCipherSpec, DoReadServerFinished, DoFinishClientHandshake;
    FinishedEventsAppend(c.wire.events, EnteredEarlyData);
    KeepsOrder(c, EnteredEarlyData);
  }

  lemma InvServer(c: Client, o: Oracle)
    requires Inv(c)
    requires
      || c.state.ReadServerCertificate? || c.state.ReadCertificateStatus? || c.state.VerifyServerCertificate?
      || c.state.ReadServerKeyExchange? || c.state.ReadCertificateRequest? || c.state.ReadServerHelloDone?
    ensures Inv(Step(c, o))
  {
    hide FinishedEvents, DoStartConnect, DoEnterEarlyData, DoReadHelloVerifyRequest, DoReadServerHello, DoTls13,
      DoSendClientCertificate, DoSendClientKeyExchange, DoSendClientCertificateVerify, DoSendClientFinished,
      DoFinishFlight, DoReadSessionTicket, DoProcessChangeCipherSpec, DoReadServerFinished, DoFinishClientHandshake;
    FinishedEventsAppend(c.wire.events, VerifiedPeer);
    FinishedEventsAppend(c.wire.events, CheckedKeyExchangeSignature);
  }

  /** One more event, with the authentication a ClientKeyExchange needs, keeps the order. */
  lemma KeepsOrder(c: Client, e: Event)
    requires Inv(c) && (e.SentKeyExchange? ==> c.state.SendClientKeyExchange?)
    ensures c.neg.cipher.UsesCertificate() ==> Precedes(c.wire.events + [e], VerifiedPeer, SentKeyExchange)
    ensures c.neg.cipher.Ecdhe? ==> Precedes(c.wire.events + [e], CheckedKeyExchangeSignature, SentKeyExchange)
  {
    hide Precedes, FinishedEvents;
    if c.neg.cipher.UsesCertificate() { PrecedesAppend(c.wire.events, e, VerifiedPeer, SentKeyExchange); }
    if c.neg.cipher.Ecdhe? { PrecedesAppend(c.wire.events, e, CheckedKeyExchangeSignature, SentKeyExchange); }
  }

  lemma InvClient(c: Client, o: Oracle)
    requires Inv(c)
    requires
      || c.state.SendClientCertificate? || c.state.SendClientKeyExchange?
      || c.state.SendClientCertificateVerify? || c.state.SendClientFinished?
    ensures Inv(Step(c, o))
  {
    hide FinishedEvents, Precedes, DoStartConnect, DoEnterEarlyData, DoReadHelloVerifyRequest, DoReadServerHello,
      DoTls13, DoReadServerCertificate, DoReadCertificateStatus, DoVerifyServerCertificate, DoReadServerKeyExchange,
      DoReadCertificateRequest, DoReadServerHelloDone, DoFinishFlight, DoReadSessionTicket, DoProcessChangeCipherSpec,
      DoReadServerFinished, DoFinishClientHandshake;
    FinishedEventsAppend(c.wire.events, SentKeyExchange);
    FinishedEventsAppend(c.wire.events, SentFinished);
    KeepsOrder(c, SentFinished);
    if c.state.SendClientKeyExchange? { KeepsOrder(c, SentKeyExchange); }
  }

  lemma InvFinish(c: Client, o: Oracle)
    requires Inv(c)
    requires
      || c.state.FinishFlight? || c.state.ReadSessionTicket? || c.state.ProcessChangeCipherSpec?
      || c.state.FinishClientHandshake?
    ensures Inv(Step(c, o))
  {
    hide FinishedEvents, Precedes, DoReadServerFinished, DoStartConnect, DoEnterEarlyData, DoReadHelloVerifyRequest,
      DoReadServerHello, DoTls13, DoReadServerCertificate, DoReadCertificateStatus, DoVerifyServerCertificate,
      DoReadServerKeyExchange, DoReadCertificateRequest, DoReadServerHelloDone, DoSendClientCertificate,
      DoSendClientKeyExchange, DoSendClientCertificateVerify, DoSendClientFinished;
  }

  lemma InvReadsFinished(c: Client, o: Oracle)
    requires Inv(c) && c.state.ReadServerFinished?
    ensures Inv(Step(c, o))
  {
    hide FinishedEvents, Precedes, DoFinishFlight, DoReadSessionTicket, DoProcessChangeCipherSpec,
      DoFinishClientHandshake, DoStartConnect, DoEnterEarlyData, DoReadHelloVerifyRequest, DoReadServerHello, DoTls13,
      DoReadServerCertificate, DoReadCertificateStatus, DoVerifyServerCertificate, DoReadServerKeyExchange,
      DoReadCertificateRequest, DoReadServerHelloDone, DoSendClientCertificate, DoSendClientKeyExchange,
      DoSendClientCertificateVerify, DoSendClientFinished;
    FinishedEventsAppend(c.wire.events, CheckedFinished);
    KeepsOrder(c, CheckedFinished);
  }

  lemma InvStep(c: Client, o: Oracle)
    requires Inv(c) && !c.state.Done?
    ensures Inv(Step(c, o))
  {
    hide Step, Inv;
    if Rank(c.state, true) >= 16 { InvHello(c, o); }
    else if Rank(c.state, true) >= 10 { InvServer(c, o); }
    else if Rank(c.state, true) >= 7 || c.state.SendClientFinished? { InvClient(c, o); }
    else if c.state.ReadServerFinished? { InvReadsFinished(c, o); }
    else { InvFinish(c, o); }
  }

  lemma {:induction false} InvRun(c: Client, acts: seq<Act>)
    requires Fresh(c)
    ensures Inv(Run(c, acts))
  {
    hide Step, Inv;
    if acts == [] {
      assert Inv(c) by { FreshInv(c); }
    } else {
      var n := |acts| - 1;
      InvRun(c, acts[..n]);
      InvApply(Run(c, acts[..n]), acts[n]);
    }
  }

  lemma FreshInv(c: Client)
    requires Fresh(c)
    ensures Inv(c)
  {
  }

  lemma InvApply(c: Client, a: Act)
    requires Inv(c)
    ensures Inv(Apply(c, a))
  {
    hide Step, FinishedEvents, Precedes;
    if a.Turn? && c.wait.Ok? && !c.state.Done? { InvStep(c, a.oracle); }
  }

  /** A client of TLS 1.2 or below that is done sent exactly one Finished and checked
      exactly one: its own first in a full handshake, the server's first in a resumption. */
  lemma OneFinishedEach(c: Client, acts: seq<Act>)
    requires Fresh(c)
    ensures var d := Run(c, acts);
            d.state.Done? && !d.neg.tls13 ==>
            FinishedEvents(d.wire.events) == if d.session.Some? then [CheckedFinished, SentFinished] else [SentFinished, CheckedFinished]
  {
    InvRun(c, acts);
  }

  /** ClientKeyExchange goes out only after the server's certificate was verified and, for
      ECDHE, its parameters were found signed by that certificate's key. */
  lemma KeyExchangeIsAuthenticated(c: Client, acts: seq<Act>)
    requires Fresh(c)
    ensures var d := Run(c, acts);
            && (d.neg.cipher.UsesCertificate() ==> Precedes(d.wire.events, VerifiedPeer, SentKeyExchange))
            && (d.neg.cipher.Ecdhe? ==> Precedes(d.wire.events, CheckedKeyExchangeSignature, SentKeyExchange))
  {
    InvRun(c, acts);
  }

  /** A client that entered early data never comes to a handshake of TLS 1.2 or below. */
  lemma EarlyDataNeedsTls13(c: Client, acts: seq<Act>)
    requires Fresh(c)
    ensures var d := Run(c, acts); EnteredEarlyData in d.wire.events ==> d.neg.tls13 || d.state.ReadServerHello?
  {
    InvRun(c, acts);
  }
}
