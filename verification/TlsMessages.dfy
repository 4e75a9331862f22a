/**
  What the two handshake machines of TLS 1.2 and below share: messages, the records that
  carry them, the transcript, and the ways a step can leave the machine.
  Cryptography is idealized: a Finished carries the inputs of its MAC, and a derived
  master secret the inputs of the PRF.
 */
module TlsMessages {
  import opened Options

  /** Key exchange and authentication of a cipher suite. */
  datatype Cipher = Rsa | Ecdhe | Psk | EcdhePsk {
    /** ssl_cipher_uses_certificate_auth. */
    predicate UsesCertificate() {
      Rsa? || Ecdhe?
    }

    /** ssl_cipher_requires_server_key_exchange: the ephemeral key exchanges. */
    predicate UsesEcdhe() {
      Ecdhe? || EcdhePsk?
    }

    predicate UsesPsk() {
      Psk? || EcdhePsk?
    }
  }

  datatype Master = NoMaster | Stored(id: nat) | Derived(premaster: nat, transcript: seq<Message>)

  datatype Mac = Mac(transcript: seq<Message>, fromServer: bool, master: Master)

  /** The ServerHello extensions that change the flow of messages. */
  datatype Extensions = Extensions(status: bool, ticket: bool, nextProto: bool, channelId: bool)

  datatype Message =
    | ClientHello(sessionId: nat)
    | HelloVerifyRequest
    | ServerHello(tls13: bool, sessionId: nat, cipher: Cipher, extensions: Extensions)
    | Certificate(certs: nat)
    | CertificateStatus
    | ServerKeyExchange
    | CertificateRequest
    | ServerHelloDone
    | ClientKeyExchange(premaster: nat)
    | CertificateVerify
    | NextProto
    | ChannelId
    | NewSessionTicket(empty: bool)
    | Finished(mac: Mac)
    | OtherMessage(kind: nat)

  /** What the record layer hands over in order: a handshake message or a ChangeCipherSpec. */
  datatype Item = Handshake(message: Message) | ChangeCipherSpec

  /** SSL_SESSION. Id 0 stands for the empty session id. */
  datatype Session = Session(id: nat, cipher: Cipher, master: Master, originalHash: bool)

  /** ssl_hs_wait_t. Retry stands for the lookups and asynchronous operations that the
      caller resolves before calling again. */
  datatype Wait = Ok | Flush | ReadMessage | ReadChangeCipherSpec | Retry | EarlyReturn | Error

  datatype Verify = VerifyOk | VerifyInvalid | VerifyRetry

  /** The history the properties speak of. */
  datatype Event =
    | EnteredEarlyData
    | SentFinished
    | CheckedFinished
    | VerifiedPeer
    | CheckedKeyExchangeSignature
    | SentKeyExchange
    | CheckedCertificateVerify

  /** The transcript hash, the records received but not consumed, the flight not yet
      flushed, and the history. */
  datatype Wire = Wire(transcript: seq<Message>, inbox: seq<Item>, pending: seq<Item>, events: seq<Event>) {

    /** add_message: into the pending flight and the transcript. */
    function Send(m: Message): Wire {
      this.(pending := pending + [Handshake(m)], transcript := transcript + [m])
    }

    function SendChangeCipherSpec(): Wire {
      this.(pending := pending + [ChangeCipherSpec])
    }

    /** ssl_hash_message and next_message. */
    function Accept(m: Message): Wire {
      this.(transcript := transcript + [m], inbox := Rest())
    }

    function Rest(): seq<Item> {
      if inbox == [] then [] else inbox[1..]
    }

    function Receive(items: seq<Item>): Wire {
      this.(inbox := inbox + items)
    }

    function Note(e: Event): Wire {
      this.(events := events + [e])
    }

    /** ssl->method->get_message: the next item, if it is a handshake message. */
    function Next(): Option<Message> {
      if inbox == [] || inbox[0].ChangeCipherSpec? then None else Some(inbox[0].message)
    }
  }

  /** The Finished messages sent and checked, in order. */
  function FinishedEvents(events: seq<Event>): seq<Event> {
    if events == [] then []
    else
      var n := |events| - 1;
      FinishedEvents(events[..n]) + (if events[n].SentFinished? || events[n].CheckedFinished? then [events[n]] else [])
  }

  lemma FinishedEventsAppend(events: seq<Event>, e: Event)
    ensures FinishedEvents(events + [e])
         == FinishedEvents(events) + (if e.SentFinished? || e.CheckedFinished? then [e] else [])
  {
    assert (events + [e])[..|events|] == events;
  }

  /** Wherever later stands in the history, earlier stands before it. */
  predicate Precedes(events: seq<Event>, earlier: Event, later: Event) {
    forall i :: 0 <= i < |events| && events[i] == later ==> earlier in events[..i]
  }

  lemma PrecedesAppend(events: seq<Event>, e: Event, earlier: Event, later: Event)
    requires Precedes(events, earlier, later) && (e == later ==> earlier in events)
    ensures Precedes(events + [e], earlier, later)
  {
    forall i | 0 <= i < |events + [e]| && (events + [e])[i] == later ensures earlier in (events + [e])[..i] {
      assert (events + [e])[..i] == if i < |events| then events[..i] else events;
    }
  }
}
