/**
  The server handshake of handshake_server.cc for TLS 1.2 and below: one function for
  each do_ step, and the loop that runs them.
 */
module TlsServer {
  import opened Options
  import opened TlsMessages

  /** state_read_change_cipher_spec is StartChangeCipherSpec here. */
  datatype State =
    | StartAccept
    | ReadClientHello
    | SelectCertificate
    | Tls13
    | SelectParameters
    | SendServerHello
    | SendServerCertificate
    | SendServerKeyExchange
    | SendServerHelloDone
    | ReadClientCertificate
    | VerifyClientCertificate
    | ReadClientKeyExchange
    | ReadClientCertificateVerify
    | StartChangeCipherSpec
    | ProcessChangeCipherSpec
    | ReadNextProto
    | ReadChannelId
    | ReadClientFinished
    | SendServerFinished
    | FinishServerHandshake
    | Done

  /** What the ClientHello offers and the callbacks choose. nextProto and channelId say
      the extension was offered and is enabled here, alpn that a protocol was chosen by
      ALPN, advertises that the NPN callback has protocols to offer. */
  datatype Choice = Choice(tls13: bool, cipher: Cipher, session: Option<Session>, renewTicket: bool, tickets: bool,
                           nextProto: bool, channelId: bool, alpn: bool, advertises: bool)

  /** What a step does not decide itself: ok is the conjunction of its decoding,
      cryptographic and allocation checks, pause says a callback asked to be called again. */
  datatype Oracle = Oracle(ok: bool, pause: bool, verify: Verify, choice: Choice, freshId: nat, premaster: Option<nat>,
                           emptyTicket: bool)

  /** verify_mode, stapling and PSK configuration. ocsp: the client asked for a stapled
      response and there is one. */
  datatype Config = Config(verifyPeer: bool, verifyPeerIfNoObc: bool, failIfNoPeerCert: bool, ocsp: bool, pskHint: bool)

  datatype Negotiated = Negotiated(tls13: bool, cipher: Cipher, extensions: Extensions, certRequest: bool, params: bool)

  /** The fields of SSL and SSL_HANDSHAKE the server steps use. */
  datatype Server = Server(state: State, wait: Wait, session: Option<Session>, peerCerts: nat, master: Master,
                           cfg: Config, neg: Negotiated, wire: Wire) {

    function Go(s: State): Server {
      this.(state := s, wait := Ok)
    }

    function Await(s: State, w: Wait): Server {
      this.(state := s, wait := w)
    }

    function Stay(w: Wait): Server {
      this.(wait := w)
    }

    function Send(m: Message): Server {
      this.(wire := wire.Send(m))
    }

    function Accept(m: Message): Server {
      this.(wire := wire.Accept(m))
    }

    function Note(e: Event): Server {
      this.(wire := wire.Note(e))
    }
  }

  function DoStartAccept(s: Server, o: Oracle): Server {
    s.Go(ReadClientHello)
  }

  /** The ClientHello stays unconsumed until the parameters are chosen. */
  function DoReadClientHello(s: Server, o: Oracle): Server {
    match s.wire.Next()
    case None => s.Stay(ReadMessage)
    case Some(m) =>
      if !m.ClientHello? then s.Stay(Error)
      else if o.pause then s.Stay(Retry)
      else if !o.ok then s.Stay(Error)
      else
        var neg := Negotiated(o.choice.tls13, Rsa, Extensions(false, false, o.choice.nextProto, o.choice.channelId), false, false);
        s.(neg := neg).Go(SelectCertificate)
  }

  function DoSelectCertificate(s: Server, o: Oracle): Server {
    match s.wire.Next()
    case None => s.Stay(ReadMessage)
    case Some(m) =>
      if o.pause then s.Stay(Retry)
      else if !o.ok then s.Stay(Error)
      else if s.neg.tls13 then s.Go(Tls13)
      else s.(neg := s.neg.(cipher := o.choice.cipher)).Go(SelectParameters)
  }

  /** tls13_server_handshake as one opaque step. */
  function DoTls13(s: Server, o: Oracle): Server {
    if !o.ok then s.Stay(Error) else if o.pause then s.Stay(Retry) else s.Go(FinishServerHandshake)
  }

  /** A client certificate is requested by verify_mode, unless Channel ID takes its place
      or the cipher has no certificates. */
  predicate RequestsCertificate(cfg: Config, cipher: Cipher, channelId: bool) {
    cfg.verifyPeer && !(cfg.verifyPeerIfNoObc && channelId) && cipher.UsesCertificate()
  }

  function DoSelectParameters(s: Server, o: Oracle): Server {
    match s.wire.Next()
    case None => s.Stay(ReadMessage)
    case Some(m) =>
      if o.pause then s.Stay(Retry)
      else if !o.ok then s.Stay(Error)
      else
        var session := o.choice.session;
        var e := s.neg.extensions;
        var certRequest := session.None? && RequestsCertificate(s.cfg, s.neg.cipher, e.channelId);
        var ticket := if session.Some? then o.choice.renewTicket else o.choice.tickets;
        s.(session := session,
           master := if session.Some? then session.value.master else NoMaster,
           neg := s.neg.(certRequest := certRequest,
                         extensions := Extensions(false, ticket, e.nextProto && !o.choice.alpn, e.channelId)))
         .Accept(m)
         .Go(SendServerHello)
  }

  /** Channel ID needs ECDHE and, on resumption, the hashes of the original handshake. */
  predicate KeepsChannelId(cipher: Cipher, session: Option<Session>, channelId: bool) {
    channelId && cipher.UsesEcdhe() && (session.Some? ==> session.value.originalHash)
  }

  function DoSendServerHello(s: Server, o: Oracle): Server {
    if !o.ok then s.Stay(Error)
    else
      var e := s.neg.extensions;
      var e' := Extensions(s.cfg.ocsp && s.session.None? && s.neg.cipher.UsesCertificate(),
                           e.ticket, e.nextProto && o.choice.advertises,
                           KeepsChannelId(s.neg.cipher, s.session, e.channelId));
      var id := if s.session.Some? then s.session.value.id else o.freshId;
      s.(neg := s.neg.(extensions := e'))
       .Send(ServerHello(false, id, s.neg.cipher, e'))
       .Go(if s.session.Some? then SendServerFinished else SendServerCertificate)
  }

  function DoSendServerCertificate(s: Server, o: Oracle): Server {
    if !o.ok then s.Stay(Error)
    else
      var s1 := if s.neg.cipher.UsesCertificate() then s.Send(Certificate(1)) else s;
      var s2 := if s.neg.cipher.UsesCertificate() && s.neg.extensions.status then s1.Send(CertificateStatus) else s1;
      var params := s.neg.cipher.UsesEcdhe() || (s.neg.cipher.UsesPsk() && s.cfg.pskHint);
      s2.(neg := s.neg.(params := params)).Go(SendServerKeyExchange)
  }

  function DoSendServerKeyExchange(s: Server, o: Oracle): Server {
    if !s.neg.params then s.Go(SendServerHelloDone)
    else if !o.ok then s.Stay(Error)
    else if o.pause then s.Stay(Retry)
    else s.Send(ServerKeyExchange).(neg := s.neg.(params := false)).Go(SendServerHelloDone)
  }

  function DoSendServerHelloDone(s: Server, o: Oracle): Server {
    if !o.ok then s.Stay(Error)
    else
      var s1 := if s.neg.certRequest then s.Send(CertificateRequest) else s;
      s1.Send(ServerHelloDone).Await(ReadClientCertificate, Flush)
  }

  function DoReadClientCertificate(s: Server, o: Oracle): Server {
    if !s.neg.certRequest then s.Go(VerifyClientCertificate)
    else
      match s.wire.Next()
      case None => s.Stay(ReadMessage)
      case Some(m) =>
        if !m.Certificate? || !o.ok then s.Stay(Error)
        else if m.certs == 0 && s.cfg.failIfNoPeerCert then s.Stay(Error)
        else s.(peerCerts := m.certs).Accept(m).Go(VerifyClientCertificate)
  }

  function DoVerifyClientCertificate(s: Server, o: Oracle): Server {
    if s.peerCerts == 0 then s.Go(ReadClientKeyExchange)
    else
      match o.verify
      case VerifyOk => s.Note(VerifiedPeer).Go(ReadClientKeyExchange)
      case VerifyInvalid => s.Stay(Error)
      case VerifyRetry => s.Stay(Retry)
  }

  /** A premaster in the oracle is the random one that replaces a badly padded RSA block. */
  function DoReadClientKeyExchange(s: Server, o: Oracle): Server {
    match s.wire.Next()
    case None => s.Stay(ReadMessage)
    case Some(m) =>
      if !m.ClientKeyExchange? then s.Stay(Error)
      else if o.pause then s.Stay(Retry)
      else if !o.ok then s.Stay(Error)
      else
        var premaster := if s.neg.cipher.Rsa? && o.premaster.Some? then o.premaster.value else m.premaster;
        s.(master := Derived(premaster, s.wire.transcript + [m])).Accept(m).Go(ReadClientCertificateVerify)
  }

  function DoReadClientCertificateVerify(s: Server, o: Oracle): Server {
    if s.peerCerts == 0 then s.Go(StartChangeCipherSpec)
    else
      match s.wire.Next()
      case None => s.Stay(ReadMessage)
      case Some(m) =>
        if !m.CertificateVerify? || !o.ok then s.Stay(Error)
        else s.Note(CheckedCertificateVerify).Accept(m).Go(StartChangeCipherSpec)
  }

  function DoStartChangeCipherSpec(s: Server, o: Oracle): Server {
    s.Await(ProcessChangeCipherSpec, ReadChangeCipherSpec)
  }

  function DoProcessChangeCipherSpec(s: Server, o: Oracle): Server {
    if !o.ok then s.Stay(Error) else s.Go(ReadNextProto)
  }

  function DoReadNextProto(s: Server, o: Oracle): Server {
    if !s.neg.extensions.nextProto then s.Go(ReadChannelId)
    else
      match s.wire.Next()
      case None => s.Stay(ReadMessage)
      case Some(m) =>
        if !m.NextProto? || !o.ok then s.Stay(Error) else s.Accept(m).Go(ReadChannelId)
  }

  function DoReadChannelId(s: Server, o: Oracle): Server {
    if !s.neg.extensions.channelId then s.Go(ReadClientFinished)
    else
      match s.wire.Next()
      case None => s.Stay(ReadMessage)
      case Some(m) =>
        if !m.ChannelId? || !o.ok then s.Stay(Error) else s.Accept(m).Go(ReadClientFinished)
  }

  function DoReadClientFinished(s: Server, o: Oracle): Server {
    match s.wire.Next()
    case None => s.Stay(ReadMessage)
    case Some(m) =>
      if !m.Finished? || !o.ok || m.mac != Mac(s.wire.transcript, false, s.master) then s.Stay(Error)
      else s.Accept(m).Note(CheckedFinished).Go(if s.session.Some? then FinishServerHandshake else SendServerFinished)
  }

  function DoSendServerFinished(s: Server, o: Oracle): Server {
    if !o.ok then s.Stay(Error)
    else
      var s1 := if s.neg.extensions.ticket then s.Send(NewSessionTicket(o.emptyTicket)) else s;
      var s2 := s1.(wire := s1.wire.SendChangeCipherSpec());
      s2.Send(Finished(Mac(s2.wire.transcript, true, s.master))).Note(SentFinished)
        .Await(if s.session.Some? then StartChangeCipherSpec else FinishServerHandshake, Flush)
  }

  function DoFinishServerHandshake(s: Server, o: Oracle): Server {
    if !o.ok then s.Stay(Error) else s.Go(Done)
  }

  /** One round of the switch in ssl_server_handshake. */
  function Step(s: Server, o: Oracle): Server {
    match s.state
    case StartAccept => DoStartAccept(s, o)
    case ReadClientHello => DoReadClientHello(s, o)
    case SelectCertificate => DoSelectCertificate(s, o)
    case Tls13 => DoTls13(s, o)
    case SelectParameters => DoSelectParameters(s, o)
    case SendServerHello => DoSendServerHello(s, o)
    case SendServerCertificate => DoSendServerCertificate(s, o)
    case SendServerKeyExchange => DoSendServerKeyExchange(s, o)
    case SendServerHelloDone => DoSendServerHelloDone(s, o)
    case ReadClientCertificate => DoReadClientCertificate(s, o)
    case VerifyClientCertificate => DoVerifyClientCertificate(s, o)
    case ReadClientKeyExchange => DoReadClientKeyExchange(s, o)
    case ReadClientCertificateVerify => DoReadClientCertificateVerify(s, o)
    case StartChangeCipherSpec => DoStartChangeCipherSpec(s, o)
    case ProcessChangeCipherSpec => DoProcessChangeCipherSpec(s, o)
    case ReadNextProto => DoReadNextProto(s, o)
    case ReadChannelId => DoReadChannelId(s, o)
    case ReadClientFinished => DoReadClientFinished(s, o)
    case SendServerFinished => DoSendServerFinished(s, o)
    case FinishServerHandshake => DoFinishServerHandshake(s, o)
    case Done => s.Stay(Ok)
  }

  /** One round of ssl_run_handshake: resolve what the machine waits for, or run it. */
  function Drive(s: Server, o: Oracle): Server {
    match s.wait
    case Ok => if s.state.Done? then s else Step(s, o)
    case Flush => s.(wire := s.wire.(pending := [])).Stay(Ok)
    case ReadMessage =>
      if s.wire.inbox == [] then s else if s.wire.inbox[0].ChangeCipherSpec? then s.Stay(Error) else s.Stay(Ok)
    case ReadChangeCipherSpec =>
      if s.wire.inbox == [] then s
      else if s.wire.inbox[0].ChangeCipherSpec? then s.(wire := s.wire.(inbox := s.wire.Rest())).Stay(Ok)
      else s.Stay(Error)
    case Retry => s.Stay(Ok)
    case EarlyReturn => s.Stay(Ok)
    case Error => s
  }

  // ------------------------------------------------------------------ termination

  /** How far the machine is from done; the Finished of the server comes before the
      client's ChangeCipherSpec in a resumption and after it otherwise. */
  function Rank(s: State, resuming: bool): nat {
    match s
    case StartAccept => 21
    case ReadClientHello => 20
    case SelectCertificate => 19
    case Tls13 => 18
    case SelectParameters => 17
    case SendServerHello => 16
    case SendServerCertificate => 15
    case SendServerKeyExchange => 14
    case SendServerHelloDone => 13
    case ReadClientCertificate => 12
    case VerifyClientCertificate => 11
    case ReadClientKeyExchange => 10
    case ReadClientCertificateVerify => 9
    case StartChangeCipherSpec => 7
    case ProcessChangeCipherSpec => 6
    case ReadNextProto => 5
    case ReadChannelId => 4
    case ReadClientFinished => 3
    case SendServerFinished => if resuming then 8 else 2
    case FinishServerHandshake => 1
    case Done => 0
  }

  ghost predicate Descends(s: Server, s': Server) {
    match s'.wait
    case Error => true
    case Retry => true
    case ReadMessage => s.wire.Next().None? && s' == s.Stay(ReadMessage)
    case _ => Rank(s'.state, s'.session.Some?) < Rank(s.state, s.session.Some?)
  }

  lemma DescendsHello(s: Server, o: Oracle)
    requires
      || s.state.StartAccept? || s.state.ReadClientHello? || s.state.SelectCertificate? || s.state.Tls13?
      || s.state.SelectParameters?
    ensures Descends(s, Step(s, o))
  {
    hide DoSendServerHello, DoSendServerCertificate, DoSendServerKeyExchange, DoSendServerHelloDone,
      DoReadClientCertificate, DoVerifyClientCertificate, DoReadClientKeyExchange, DoReadClientCertificateVerify,
      DoStartChangeCipherSpec, DoProcessChangeCipherSpec, DoReadNextProto, DoReadChannelId, DoReadClientFinished,
      DoSendServerFinished, DoFinishServerHandshake;
  }

  lemma DescendsFlight(s: Server, o: Oracle)
    requires
      || s.state.SendServerHello? || s.state.SendServerCertificate? || s.state.SendServerKeyExchange?
      || s.state.SendServerHelloDone?
    ensures Descends(s, Step(s, o))
  {
    hide DoStartAccept, DoReadClientHello, DoSelectCertificate, DoTls13, DoSelectParameters, DoReadClientCertificate,
      DoVerifyClientCertificate, DoReadClientKeyExchange, DoReadClientCertificateVerify, DoStartChangeCipherSpec,
      DoProcessChangeCipherSpec, DoReadNextProto, DoReadChannelId, DoReadClientFinished, DoSendServerFinished,
      DoFinishServerHandshake;
  }

  lemma DescendsClient(s: Server, o: Oracle)
    requires
      || s.state.ReadClientCertificate? || s.state.VerifyClientCertificate? || s.state.ReadClientKeyExchange?
      || s.state.ReadClientCertificateVerify?
    ensures Descends(s, Step(s, o))
  {
    hide DoStartAccept, DoReadClientHello, DoSelectCertificate, DoTls13, DoSelectParameters, DoSendServerHello,
      DoSendServerCertificate, DoSendServerKeyExchange, DoSendServerHelloDone, DoStartChangeCipherSpec,
      DoProcessChangeCipherSpec, DoReadNextProto, DoReadChannelId, DoReadClientFinished, DoSendServerFinished,
      DoFinishServerHandshake;
  }

  lemma DescendsFinish(s: Server, o: Oracle)
    requires
      || s.state.StartChangeCipherSpec? || s.state.ProcessChangeCipherSpec? || s.state.ReadNextProto?
      || s.state.ReadChannelId? || s.state.ReadClientFinished? || s.state.SendServerFinished?
      || s.state.FinishServerHandshake?
    ensures Descends(s, Step(s, o))
  {
    hide DoStartAccept, DoReadClientHello, DoSelectCertificate, DoTls13, DoSelectParameters, DoSendServerHello,
      DoSendServerCertificate, DoSendServerKeyExchange, DoSendServerHelloDone, DoReadClientCertificate,
      DoVerifyClientCertificate, DoReadClientKeyExchange, DoReadClientCertificateVerify;
  }

  /** Every round brings the machine closer to done, unless it stops with an error, for
      a callback, or for a message that is not there. */
  lemma StepDescends(s: Server, o: Oracle)
    requires !s.state.Done?
    ensures Descends(s, Step(s, o))
  {
    hide Step;
    if Rank(s.state, true) >= 17 { DescendsHello(s, o); }
    else if Rank(s.state, true) >= 13 { DescendsFlight(s, o); }
    else if Rank(s.state, true) >= 9 { DescendsClient(s, o); }
    else { DescendsFinish(s, o); }
  }

  /** What ssl_server_handshake leaves, when the environment answers by env. */
  function Loop(s: Server, env: Server -> Oracle): (r: Server)
    ensures r.state.Done? || !r.wait.Ok?
    decreases Rank(s.state, s.session.Some?)
  {
    if s.state.Done? then s.Stay(Ok)
    else
      var s' := Step(s, env(s));
      if !s'.wait.Ok? then s' else (StepDescends(s, env(s)); Loop(s', env))
  }

  /** An SSL_HANDSHAKE on the server's side. Each method is a do_ step: it assigns the fields it
      changes, and wait holds what it returns. */
  class ServerHandshake {
    const cfg: Config
    var state: State
    var wait: Wait
    var session: Option<Session>
    var peerCerts: nat
    var master: Master
    var neg: Negotiated
    var wire: Wire

    function Hs(): Server
      reads this
    {
      Server(state, wait, session, peerCerts, master, cfg, neg, wire)
    }

    constructor (s: Server)
      ensures Hs() == s
    {
      cfg, state, wait, session := s.cfg, s.state, s.wait, s.session;
      peerCerts, master, neg, wire := s.peerCerts, s.master, s.neg, s.wire;
    }

    method StartAcceptStep(o: Oracle)
      modifies this
      ensures Hs() == DoStartAccept(old(Hs()), o)
    {
      state, wait := ReadClientHello, Ok;
    }

    method ReadClientHelloStep(o: Oracle)
      modifies this
      ensures Hs() == DoReadClientHello(old(Hs()), o)
    {
      var msg := wire.Next();
      if msg.None? { wait := ReadMessage; return; }
      if !msg.value.ClientHello? { wait := Error; return; }
      if o.pause { wait := Retry; return; }
      if !o.ok { wait := Error; return; }
      neg := Negotiated(o.choice.tls13, Rsa, Extensions(false, false, o.choice.nextProto, o.choice.channelId), false, false);
      state, wait := SelectCertificate, Ok;
    }

    method SelectCertificateStep(o: Oracle)
      modifies this
      ensures Hs() == DoSelectCertificate(old(Hs()), o)
    {
      var msg := wire.Next();
      if msg.None? { wait := ReadMessage; return; }
      if o.pause { wait := Retry; return; }
      if !o.ok { wait := Error; return; }
      if neg.tls13 { state, wait := Tls13, Ok; return; }
      neg := neg.(cipher := o.choice.cipher);
      state, wait := SelectParameters, Ok;
    }

    method Tls13Step(o: Oracle)
      modifies this
      ensures Hs() == DoTls13(old(Hs()), o)
    {
      if !o.ok { wait := Error; return; }
      if o.pause { wait := Retry; return; }
      state, wait := FinishServerHandshake, Ok;
    }

    method SelectParametersStep(o: Oracle)
      modifies this
      ensures Hs() == DoSelectParameters(old(Hs()), o)
    {
      var msg := wire.Next();
      if msg.None? { wait := ReadMessage; return; }
      if o.pause { wait := Retry; return; }
      if !o.ok { wait := Error; return; }
      session := o.choice.session;
      var e := neg.extensions;
      if session.Some? {
        master := session.value.master;
        neg := neg.(certRequest := false, extensions := Extensions(false, o.choice.renewTicket, e.nextProto && !o.choice.alpn, e.channelId));
      } else {
        master := NoMaster;
        neg := neg.(certRequest := RequestsCertificate(cfg, neg.cipher, e.channelId),
                    extensions := Extensions(false, o.choice.tickets, e.nextProto && !o.choice.alpn, e.channelId));
      }
      wire := wire.Accept(msg.value);
      state, wait := SendServerHello, Ok;
    }

    method SendServerHelloStep(o: Oracle)
      modifies this
      ensures Hs() == DoSendServerHello(old(Hs()), o)
    {
      if !o.ok { wait := Error; return; }
      var e := neg.extensions;
      e := Extensions(cfg.ocsp && session.None? && neg.cipher.UsesCertificate(), e.ticket, e.nextProto && o.choice.advertises,
                      KeepsChannelId(neg.cipher, session, e.channelId));
      neg := neg.(extensions := e);
      var id := if session.Some? then session.value.id else o.freshId;
      wire := wire.Send(ServerHello(false, id, neg.cipher, e));
      if session.Some? { state := SendServerFinished; } else { state := SendServerCertificate; }
      wait := Ok;
    }

    method SendServerCertificateStep(o: Oracle)
      modifies this
      ensures Hs() == DoSendServerCertificate(old(Hs()), o)
    {
      if !o.ok { wait := Error; return; }
      if neg.cipher.UsesCertificate() {
        wire := wire.Send(Certificate(1));
        if neg.extensions.status { wire := wire.Send(CertificateStatus); }
      }
      neg := neg.(params := neg.cipher.UsesEcdhe() || (neg.cipher.UsesPsk() && cfg.pskHint));
      state, wait := SendServerKeyExchange, Ok;
    }

    method SendServerKeyExchangeStep(o: Oracle)
      modifies this
      ensures Hs() == DoSendServerKeyExchange(old(Hs()), o)
    {
      if neg.params {
        if !o.ok { wait := Error; return; }
        if o.pause { wait := Retry; return; }
        wire := wire.Send(ServerKeyExchange);
        neg := neg.(params := false);
      }
      state, wait := SendServerHelloDone, Ok;
    }

    method SendServerHelloDoneStep(o: Oracle)
      modifies this
      ensures Hs() == DoSendServerHelloDone(old(Hs()), o)
    {
      if !o.ok { wait := Error; return; }
      if neg.certRequest { wire := wire.Send(CertificateRequest); }
      wire := wire.Send(ServerHelloDone);
      state, wait := ReadClientCertificate, Flush;
    }

    method ReadClientCertificateStep(o: Oracle)
      modifies this
      ensures Hs() == DoReadClientCertificate(old(Hs()), o)
    {
      if neg.certRequest {
        var msg := wire.Next();
        if msg.None? { wait := ReadMessage; return; }
        if !msg.value.Certificate? || !o.ok { wait := Error; return; }
        if msg.value.certs == 0 && cfg.failIfNoPeerCert { wait := Error; return; }
        peerCerts := msg.value.certs;
        wire := wire.Accept(msg.value);
      }
      state, wait := VerifyClientCertificate, Ok;
    }

    method VerifyClientCertificateStep(o: Oracle)
      modifies this
      ensures Hs() == DoVerifyClientCertificate(old(Hs()), o)
    {
      if peerCerts > 0 {
        match o.verify {
          case VerifyOk =>
          case VerifyInvalid => wait := Error; return;
          case VerifyRetry => wait := Retry; return;
        }
        wire := wire.Note(VerifiedPeer);
      }
      state, wait := ReadClientKeyExchange, Ok;
    }

    method ReadClientKeyExchangeStep(o: Oracle)
      modifies this
      ensures Hs() == DoReadClientKeyExchange(old(Hs()), o)
    {
      var msg := wire.Next();
      if msg.None? { wait := ReadMessage; return; }
      if !msg.value.ClientKeyExchange? { wait := Error; return; }
      if o.pause { wait := Retry; return; }
      if !o.ok { wait := Error; return; }
      var premaster := msg.value.premaster;
      if neg.cipher.Rsa? && o.premaster.Some? { premaster := o.premaster.value; }
      wire := wire.Accept(msg.value);
      master := Derived(premaster, wire.transcript);
      state, wait := ReadClientCertificateVerify, Ok;
    }

    method ReadClientCertificateVerifyStep(o: Oracle)
      modifies this
      ensures Hs() == DoReadClientCertificateVerify(old(Hs()), o)
    {
      if peerCerts > 0 {
        var msg := wire.Next();
        if msg.None? { wait := ReadMessage; return; }
        if !msg.value.CertificateVerify? || !o.ok { wait := Error; return; }
        wire := wire.Note(CheckedCertificateVerify);
        wire := wire.Accept(msg.value);
      }
      state, wait := StartChangeCipherSpec, Ok;
    }

    method StartChangeCipherSpecStep(o: Oracle)
      modifies this
      ensures Hs() == DoStartChangeCipherSpec(old(Hs()), o)
    {
      state, wait := ProcessChangeCipherSpec, ReadChangeCipherSpec;
    }

    method ProcessChangeCipherSpecStep(o: Oracle)
      modifies this
      ensures Hs() == DoProcessChangeCipherSpec(old(Hs()), o)
    {
      if !o.ok { wait := Error; return; }
      state, wait := ReadNextProto, Ok;
    }

    method ReadNextProtoStep(o: Oracle)
      modifies this
      ensures Hs() == DoReadNextProto(old(Hs()), o)
    {
      if neg.extensions.nextProto {
        var msg := wire.Next();
        if msg.None? { wait := ReadMessage; return; }
        if !msg.value.NextProto? || !o.ok { wait := Error; return; }
        wire := wire.Accept(msg.value);
      }
      state, wait := ReadChannelId, Ok;
    }

    method ReadChannelIdStep(o: Oracle)
      modifies this
      ensures Hs() == DoReadChannelId(old(Hs()), o)
    {
      if neg.extensions.channelId {
        var msg := wire.Next();
        if msg.None? { wait := ReadMessage; return; }
        if !msg.value.ChannelId? || !o.ok { wait := Error; return; }
        wire := wire.Accept(msg.value);
      }
      state, wait := ReadClientFinished, Ok;
    }

    method ReadClientFinishedStep(o: Oracle)
      modifies this
      ensures Hs() == DoReadClientFinished(old(Hs()), o)
    {
      var msg := wire.Next();
      if msg.None? { wait := ReadMessage; return; }
      if !msg.value.Finished? || !o.ok || msg.value.mac != Mac(wire.transcript, false, master) { wait := Error; return; }
      wire := wire.Accept(msg.value);
      wire := wire.Note(CheckedFinished);
      if session.Some? { state := FinishServerHandshake; } else { state := SendServerFinished; }
      wait := Ok;
    }

    method SendServerFinishedStep(o: Oracle)
      modifies this
      ensures Hs() == DoSendServerFinished(old(Hs()), o)
    {
      if !o.ok { wait := Error; return; }
      if neg.extensions.ticket { wire := wire.Send(NewSessionTicket(o.emptyTicket)); }
      wire := wire.SendChangeCipherSpec();
      wire := wire.Send(Finished(Mac(wire.transcript, true, master)));
      wire := wire.Note(SentFinished);
      if session.Some? { state := StartChangeCipherSpec; } else { state := FinishServerHandshake; }
      wait := Flush;
    }

    method FinishServerHandshakeStep(o: Oracle)
      modifies this
      ensures Hs() == DoFinishServerHandshake(old(Hs()), o)
    {
      if !o.ok { wait := Error; return; }
      state, wait := Done, Ok;
    }

    /** The switch of ssl_server_handshake. */
    method Dispatch(o: Oracle)
      modifies this
      ensures Hs() == Step(old(Hs()), o)
    {
      hide DoStartAccept, DoReadClientHello, DoSelectCertificate, DoTls13, DoSelectParameters, DoSendServerHello,
        DoSendServerCertificate, DoSendServerKeyExchange, DoSendServerHelloDone, DoReadClientCertificate,
        DoVerifyClientCertificate, DoReadClientKeyExchange, DoReadClientCertificateVerify, DoStartChangeCipherSpec,
        DoProcessChangeCipherSpec, DoReadNextProto, DoReadChannelId, DoReadClientFinished, DoSendServerFinished,
        DoFinishServerHandshake;
      match state
      case StartAccept => StartAcceptStep(o);
      case ReadClientHello => ReadClientHelloStep(o);
      case SelectCertificate => SelectCertificateStep(o);
      case Tls13 => Tls13Step(o);
      case SelectParameters => SelectParametersStep(o);
      case SendServerHello => SendServerHelloStep(o);
      case SendServerCertificate => SendServerCertificateStep(o);
      case SendServerKeyExchange => SendServerKeyExchangeStep(o);
      case SendServerHelloDone => SendServerHelloDoneStep(o);
      case ReadClientCertificate => ReadClientCertificateStep(o);
      case VerifyClientCertificate => VerifyClientCertificateStep(o);
      case ReadClientKeyExchange => ReadClientKeyExchangeStep(o);
      case ReadClientCertificateVerify => ReadClientCertificateVerifyStep(o);
      case StartChangeCipherSpec => StartChangeCipherSpecStep(o);
      case ProcessChangeCipherSpec => ProcessChangeCipherSpecStep(o);
      case ReadNextProto => ReadNextProtoStep(o);
      case ReadChannelId => ReadChannelIdStep(o);
      case ReadClientFinished => ReadClientFinishedStep(o);
      case SendServerFinished => SendServerFinishedStep(o);
      case FinishServerHandshake => FinishServerHandshakeStep(o);
      case Done => wait := Ok;
    }

    /** ssl_server_handshake. It ends because every round lowers the rank. */
    method Handshake(env: Server -> Oracle)
      modifies this
      ensures Hs() == Loop(old(Hs()), env)
    {
      hide Step, Rank;
      while !state.Done?
        invariant Loop(Hs(), env) == Loop(old(Hs()), env)
        decreases Rank(state, session.Some?)
      {
        ghost var s := Hs();
        StepDescends(s, env(s));
        Dispatch(env(Hs()));
        if !wait.Ok? { return; }
      }
      wait := Ok;
    }

    /** One round of ssl_run_handshake: what the machine waits for is done, or the machine runs. */
    method Round(o: Oracle)
      modifies this
      ensures Hs() == Drive(old(Hs()), o)
    {
      hide Step;
      match wait
      case Ok => if !state.Done? { Dispatch(o); }
      case Flush =>
        wire := wire.(pending := []);
        wait := Ok;
      case ReadMessage =>
        if wire.inbox != [] {
          if wire.inbox[0].ChangeCipherSpec? { wait := Error; } else { wait := Ok; }
        }
      case ReadChangeCipherSpec =>
        if wire.inbox != [] {
          if wire.inbox[0].ChangeCipherSpec? {
            wire := wire.(inbox := wire.Rest());
            wait := Ok;
          } else {
            wait := Error;
          }
        }
      case Retry => wait := Ok;
      case EarlyReturn => wait := Ok;
      case Error =>
    }
  }

  // ------------------------------------------------------------------ runs against any peer

  /** What happens to a server: a record arrives, or it is driven one round. */
  datatype Act = Arrive(item: Item) | Turn(oracle: Oracle)

  function Apply(s: Server, a: Act): Server {
    match a
    case Arrive(item) => s.(wire := s.wire.(inbox := s.wire.inbox + [item]))
    case Turn(o) => Drive(s, o)
  }

  function Run(s: Server, acts: seq<Act>): Server {
    if acts == [] then s
    else
      var n := |acts| - 1;
      Apply(Run(s, acts[..n]), acts[n])
  }

  predicate Fresh(s: Server) {
    s.state.StartAccept? && !s.neg.tls13 && s.wire.events == [] && s.peerCerts == 0
  }

  /** The Finished messages sent and checked by the time a state is reached. */
  function FinishedBy(s: State, resuming: bool): seq<Event> {
    match s
    case StartChangeCipherSpec => if resuming then [SentFinished] else []
    case ProcessChangeCipherSpec => if resuming then [SentFinished] else []
    case ReadNextProto => if resuming then [SentFinished] else []
    case ReadChannelId => if resuming then [SentFinished] else []
    case ReadClientFinished => if resuming then [SentFinished] else []
    case SendServerFinished => if resuming then [] else [CheckedFinished]
    case FinishServerHandshake => if resuming then [SentFinished, CheckedFinished] else [CheckedFinished, SentFinished]
    case Done => if resuming then [SentFinished, CheckedFinished] else [CheckedFinished, SentFinished]
    case _ => []
  }

  /** The states before the resumption decision. */
  predicate Undecided(s: State) {
    s.StartAccept? || s.ReadClientHello? || s.SelectCertificate? || s.SelectParameters? || s.Tls13?
  }

  /** The states of a full handshake before the client's Certificate was read. */
  predicate BeforeCertificate(s: State) {
    || s.SendServerHello? || s.SendServerCertificate? || s.SendServerKeyExchange? || s.SendServerHelloDone?
    || s.ReadClientCertificate?
  }

  /** The states of a full handshake before CertificateVerify was read. */
  predicate BeforeCertificateVerify(s: State) {
    s.ReadClientKeyExchange? || s.ReadClientCertificateVerify?
  }

  /** What every reachable server satisfies. */
  ghost predicate Inv(s: Server) {
    && (s.neg.tls13 ==> Undecided(s.state) || s.state.FinishServerHandshake? || s.state.Done?)
    && (s.state.Tls13? ==> s.neg.tls13)
    && (s.state.StartAccept? || s.state.ReadClientHello? || s.state.SelectParameters? ==> !s.neg.tls13)
    && (!s.neg.tls13 ==> FinishedEvents(s.wire.events) == FinishedBy(s.state, !Undecided(s.state) && s.session.Some?))
    && (BeforeCertificate(s.state) && !s.state.SendServerHello? ==> s.session.None?)
    && (BeforeCertificateVerify(s.state) || s.state.VerifyClientCertificate? ==> s.session.None?)
    && (!Undecided(s.state) && !s.neg.tls13 && s.session.Some? ==> !s.neg.certRequest)
    && (Undecided(s.state) || BeforeCertificate(s.state) ==> s.peerCerts == 0)
    && (!s.neg.tls13 && !Undecided(s.state) && !BeforeCertificate(s.state) && s.neg.certRequest && s.cfg.failIfNoPeerCert ==>
        s.peerCerts > 0)
    && (!s.state.VerifyClientCertificate? && s.peerCerts > 0 ==> VerifiedPeer in s.wire.events)
    && (!s.state.VerifyClientCertificate? && !BeforeCertificateVerify(s.state) && s.peerCerts > 0 ==>
        CheckedCertificateVerify in s.wire.events)
    && Precedes(s.wire.events, VerifiedPeer, CheckedCertificateVerify)
  }

  lemma InvHello(s: Server, o: Oracle)
    requires Inv(s)
    requires
      || s.state.StartAccept? || s.state.ReadClientHello? || s.state.SelectCertificate? || s.state.Tls13?
      || s.state.SelectParameters?
    ensures Inv(Step(s, o))
  {
    hide FinishedEvents, Precedes, DoSendServerHello, DoSendServerCertificate, DoSendServerKeyExchange,
      DoSendServerHelloDone, DoReadClientCertificate, DoVerifyClientCertificate, DoReadClientKeyExchange,
      DoReadClientCertificateVerify, DoStartChangeCipherSpec, DoProcessChangeCipherSpec, DoReadNextProto,
      DoReadChannelId, DoReadClientFinished, DoSendServerFinished, DoFinishServerHandshake;
  }

  lemma InvFlight(s: Server, o: Oracle)
    requires Inv(s)
    requires
      || s.state.SendServerHello? || s.state.SendServerCertificate? || s.state.SendServerKeyExchange?
      || s.state.SendServerHelloDone?
    ensures Inv(Step(s, o))
  {
    hide FinishedEvents, Precedes, DoStartAccept, DoReadClientHello, DoSelectCertificate, DoTls13, DoSelectParameters,
      DoReadClientCertificate, DoVerifyClientCertificate, DoReadClientKeyExchange, DoReadClientCertificateVerify,
      DoStartChangeCipherSpec, DoProcessChangeCipherSpec, DoReadNextProto, DoReadChannelId, DoReadClientFinished,
      DoSendServerFinished, DoFinishServerHandshake;
  }

  lemma InvClient(s: Server, o: Oracle)
    requires Inv(s)
    requires
      || s.state.ReadClientCertificate? || s.state.VerifyClientCertificate? || s.state.ReadClientKeyExchange?
      || s.state.ReadClientCertificateVerify?
    ensures Inv(Step(s, o))
  {
    hide FinishedEvents, Precedes, DoStartAccept, DoReadClientHello, DoSelectCertificate, DoTls13, DoSelectParameters,
      DoSendServerHello, DoSendServerCertificate, DoSendServerKeyExchange, DoSendServerHelloDone,
      DoStartChangeCipherSpec, DoProcessChangeCipherSpec, DoReadNextProto, DoReadChannelId, DoReadClientFinished,
      DoSendServerFinished, DoFinishServerHandshake;
    Appended(s, VerifiedPeer);
    Appended(s, CheckedCertificateVerify);
  }

  lemma InvFinish(s: Server, o: Oracle)
    requires Inv(s)
    requires
      || s.state.StartChangeCipherSpec? || s.state.ProcessChangeCipherSpec? || s.state.ReadNextProto?
      || s.state.ReadChannelId? || s.state.FinishServerHandshake?
    ensures Inv(Step(s, o))
  {
    hide FinishedEvents, Precedes, DoReadClientFinished, DoSendServerFinished, DoStartAccept, DoReadClientHello,
      DoSelectCertificate, DoTls13, DoSelectParameters, DoSendServerHello, DoSendServerCertificate,
      DoSendServerKeyExchange, DoSendServerHelloDone, DoReadClientCertificate, DoVerifyClientCertificate,
      DoReadClientKeyExchange, DoReadClientCertificateVerify;
  }

  lemma InvFinisheds(s: Server, o: Oracle)
    requires Inv(s)
    requires s.state.ReadClientFinished? || s.state.SendServerFinished?
    ensures Inv(Step(s, o))
  {
    hide FinishedEvents, Precedes, DoStartChangeCipherSpec, DoProcessChangeCipherSpec, DoReadNextProto,
      DoReadChannelId, DoFinishServerHandshake, DoStartAccept, DoReadClientHello, DoSelectCertificate, DoTls13,
      DoSelectParameters, DoSendServerHello, DoSendServerCertificate, DoSendServerKeyExchange, DoSendServerHelloDone,
      DoReadClientCertificate, DoVerifyClientCertificate, DoReadClientKeyExchange, DoReadClientCertificateVerify;
    Appended(s, CheckedFinished);
    Appended(s, SentFinished);
  }

  lemma Appended(s: Server, e: Event)
    requires Precedes(s.wire.events, VerifiedPeer, CheckedCertificateVerify)
    ensures FinishedEvents(s.wire.events + [e])
         == FinishedEvents(s.wire.events) + (if e.SentFinished? || e.CheckedFinished? then [e] else [])
    ensures (e.CheckedCertificateVerify? ==> VerifiedPeer in s.wire.events) ==>
            Precedes(s.wire.events + [e], VerifiedPeer, CheckedCertificateVerify)
  {
    hide FinishedEvents, Precedes;
    FinishedEventsAppend(s.wire.events, e);
    if e.CheckedCertificateVerify? ==> VerifiedPeer in s.wire.events {
      PrecedesAppend(s.wire.events, e, VerifiedPeer, CheckedCertificateVerify);
    }
  }

  lemma InvStep(s: Server, o: Oracle)
    requires Inv(s) && !s.state.Done?
    ensures Inv(Step(s, o))
  {
    hide Step, Inv;
    if Rank(s.state, true) >= 17 { InvHello(s, o); }
    else if Rank(s.state, true) >= 13 { InvFlight(s, o); }
    else if Rank(s.state, true) >= 9 { InvClient(s, o); }
    else if s.state.ReadClientFinished? || s.state.SendServerFinished? { InvFinisheds(s, o); }
    else { InvFinish(s, o); }
  }

  lemma FreshInv(s: Server)
    requires Fresh(s)
    ensures Inv(s)
  {
  }

  lemma InvApply(s: Server, a: Act)
    requires Inv(s)
    ensures Inv(Apply(s, a))
  {
    hide Step, FinishedEvents, Precedes;
    if a.Turn? && s.wait.Ok? && !s.state.Done? { InvStep(s, a.oracle); }
  }

  lemma {:induction false} InvRun(s: Server, acts: seq<Act>)
    requires Fresh(s)
    ensures Inv(Run(s, acts))
  {
    hide Step, Inv;
    if acts == [] {
      assert Inv(s) by { FreshInv(s); }
    } else {
      var n := |acts| - 1;
      InvRun(s, acts[..n]);
      InvApply(Run(s, acts[..n]), acts[n]);
    }
  }

  /** A server of TLS 1.2 or below that is done sent exactly one Finished and checked
      exactly one: the client's first in a full handshake, its own first in a resumption. */
  lemma OneFinishedEach(s: Server, acts: seq<Act>)
    requires Fresh(s)
    ensures var d := Run(s, acts);
            d.state.Done? && !d.neg.tls13 ==>
            FinishedEvents(d.wire.events)
            == if d.session.Some? then [SentFinished, CheckedFinished] else [CheckedFinished, SentFinished]
  {
    InvRun(s, acts);
  }

  /** A server that asked for a certificate and insists on one is done only with a client
      whose chain it verified and whose possession of the key it checked afterwards. */
  lemma ClientIsAuthenticated(s: Server, acts: seq<Act>)
    requires Fresh(s)
    ensures var d := Run(s, acts);
            d.state.Done? && !d.neg.tls13 && d.neg.certRequest && d.cfg.failIfNoPeerCert ==>
            && d.peerCerts > 0
            && CheckedCertificateVerify in d.wire.events
            && Precedes(d.wire.events, VerifiedPeer, CheckedCertificateVerify)
  {
    InvRun(s, acts);
  }
}
