/**
  Sender and receiver of the DTLS handshake transport joined by a network that drops,
  duplicates and reorders records, while flights are retransmitted at other MTUs.
 */
module DtlsNetwork {
  import opened Bits
  import opened Options
  import opened DtlsReassembly
  import opened DtlsReceiver
  import opened DtlsSender

  // ------------------------------------------------------------------ the receiver's runs

  /** What happens to a receiver: a record arrives, or the handshake reads on. */
  datatype Event = Arrival(pieces: seq<Piece>, encrypted: bool) | ReadOn

  /** The receiver after some events; nothing happens after a fatal one. */
  function Run(st: State, events: seq<Event>, maxLen: nat): State
    requires Inv(st)
    ensures Inv(Run(st, events, maxLen))
    decreases |events|
  {
    if events == [] then st
    else
      match events[0]
      case Arrival(pieces, encrypted) =>
        OpenedInv(st, pieces, maxLen, encrypted);
        var (st', fatal) := Opened(st, pieces, maxLen, encrypted);
        if fatal then st' else Run(st', events[1..], maxLen)
      case ReadOn =>
        if Current(st).None? then Run(st, events[1..], maxLen)
        else (AdvanceInv(st); Run(Advance(st), events[1..], maxLen))
  }

  lemma {:induction false} OpenedInv(st: State, pieces: seq<Piece>, maxLen: nat, encrypted: bool)
    requires Inv(st)
    ensures Inv(Opened(st, pieces, maxLen, encrypted).0)
    decreases |pieces|
  {
    hide Inv;
    InvShaped(st);
    if pieces != [] {
      var r := Take(st, pieces[0], maxLen, encrypted);
      if r.Took? {
        TakeInv(st, pieces[0], maxLen, encrypted);
        OpenedInv(r.state, pieces[1..], maxLen, encrypted);
      } else if r.Ignored? {
        OpenedInv(st, pieces[1..], maxLen, encrypted);
      }
    }
  }

  ghost predicate AllHonest(events: seq<Event>, sent: seq<Message>) {
    forall e, i :: 0 <= e < |events| && events[e].Arrival? && 0 <= i < |events[e].pieces| ==> Honest(events[e].pieces[i], sent)
  }

  /** Whatever the network does with honest pieces, the messages delivered are a byte-exact
      prefix of those sent. */
  lemma {:induction false} DeliveredIsPrefix(st: State, events: seq<Event>, maxLen: nat, sent: seq<Message>)
    requires Inv(st) && Faithful(st, sent) && AllHonest(events, sent)
    ensures Faithful(Run(st, events, maxLen), sent) && Run(st, events, maxLen).delivered <= sent
    decreases |events|
  {
    if events != [] {
      hide Inv;
      assert AllHonest(events[1..], sent);
      match events[0]
      case Arrival(pieces, encrypted) =>
        OpenedFaithful(st, pieces, maxLen, encrypted, sent);
        var (st', fatal) := Opened(st, pieces, maxLen, encrypted);
        if !fatal { DeliveredIsPrefix(st', events[1..], maxLen, sent); }
      case ReadOn =>
        InvShaped(st);
        if Current(st).None? {
          DeliveredIsPrefix(st, events[1..], maxLen, sent);
        } else {
          AdvanceInv(st);
          AdvanceFaithful(st, sent);
          DeliveredIsPrefix(Advance(st), events[1..], maxLen, sent);
        }
    }
  }

  /** When the receiver has accepted the records of a completed pass, it has the message it
      is waiting for, exactly as sent. */
  lemma FlightArrives(st: State, sent: seq<Message>, messages: seq<Outgoing>, pass: seq<Record>, j: nat)
    requires Inv(st) && Faithful(st, sent)
    requires Carried(messages, pass, |messages|, 0)
    requires j < |messages| && !messages[j].isCcs && Known(messages[j], sent) && messages[j].number == st.readSeq
    requires forall i :: 0 <= i < |pass| && pass[i].HandshakeRecord? && pass[i].piece.number == st.readSeq ==>
               pass[i].piece in st.accepted
    ensures Current(st) == Some(Message(messages[j].kind, messages[j].body))
  {
    hide Inv, Carried, Covered;
    InvShaped(st);
    PassIsComplete(messages, pass, j);
    var n := st.readSeq;
    var i :| 0 <= i < |pass| && pass[i].HandshakeRecord? && pass[i].piece.number == n;
    AcceptedBegins(st, pass[i].piece);
    var h := st.slots[n % RING].value;
    assert FaithfulSlot(st.slots[n % RING], sent);
    assert h.number == n by { HeldNumber(st, n); }
    forall k: nat | k < h.msgLen ensures Covered(st.accepted, n, k) {
      assert CarriesByte(pass, n, k);
      var r :| 0 <= r < |pass| && CoversRecord(pass[r], n, k);
      assert pass[r].piece in st.accepted;
      InCovers(st.accepted, pass[r].piece, n, k);
    }
    CurrentIffCovered(st);
    AdvanceFaithful(st, sent);
  }

  lemma AcceptedBegins(st: State, p: Piece)
    requires Inv(st) && p in st.accepted && p.number == st.readSeq
    ensures Begun(st.accepted, st.readSeq) && st.slots[st.readSeq % RING].Some?
  {
    assert SlotInv(st.slots[st.readSeq % RING], st.readSeq, st.accepted);
    var i :| 0 <= i < |st.accepted| && st.accepted[i] == p;
  }

  lemma InCovers(accepted: seq<Piece>, p: Piece, n: nat, k: nat)
    requires p in accepted && Covers(p, n, k)
    ensures Covered(accepted, n, k)
  {
    var i :| 0 <= i < |accepted| && accepted[i] == p;
  }

  // ------------------------------------------------------------------ both ends

  /** One step of a connection. */
  datatype Action =
    | Add(isCcs: bool, kind: nat, body: seq<Byte>)
    | Flush(env: Env)
    | Timeout(env: Env, fallbackMtu: int)
    | Rekey(aead: Aead)
    | Deliver(index: nat, encrypted: bool)   // any record handed over so far, as often as the network likes
    | Read

  class Connection {
    const sender: Sender
    const receiver: Receiver
    var alive: bool

    /** The receiver has only what the sender sent. */
    ghost predicate Valid()
      reads this, sender, receiver
    {
      sender.Valid() && receiver.Valid() && Faithful(receiver.Now(), sender.sent)
    }

    constructor (sender: Sender, receiver: Receiver)
      requires sender.Valid() && receiver.Valid() && Faithful(receiver.Now(), sender.sent)
      ensures Valid() && this.sender == sender && this.receiver == receiver && alive
    {
      this.sender, this.receiver, alive := sender, receiver, true;
    }

    /** Every step keeps the messages delivered a prefix of the messages sent. */
    method Step(a: Action)
      requires Valid()
      modifies this, sender, receiver
      ensures Valid() && receiver.delivered <= sender.sent
      ensures old(sender.sent) <= sender.sent && old(receiver.delivered) <= receiver.delivered
    {
      hide Tracked, Carried, WholeFlight, SendFrom, Inv;
      match a
      case Add(isCcs, kind, body) =>
        ghost var before := sender.sent;
        var ok := sender.AddOutgoing(isCcs, kind, body);
        FaithfulLonger(receiver.Now(), before, sender.sent);
      case Flush(env) =>
        var ret := sender.FlushFlight(false, env);
      case Timeout(env, fallbackMtu) =>
        sender.ReduceMtu(fallbackMtu);
        var ret := sender.Retransmit(false, env);
      case Rekey(aead) =>
        sender.SetWriteState(aead);
      case Deliver(index, encrypted) =>
        if alive && index < |sender.network| && sender.network[index].HandshakeRecord? {
          var pieces := [sender.network[index].piece];
          assert sender.network[index] in sender.network;
          OpenedFaithful(receiver.Now(), pieces, receiver.maxLen, encrypted, sender.sent);
          var fatal := receiver.OpenHandshake(pieces, encrypted);
          if fatal { alive := false; }
        }
      case Read =>
        var m := receiver.GetMessage();
        if m.Some? {
          AdvanceFaithful(receiver.Now(), sender.sent);
          receiver.NextMessage();
        }
    }
  }

  lemma FaithfulLonger(st: State, sent: seq<Message>, sent': seq<Message>)
    requires Faithful(st, sent) && sent <= sent'
    ensures Faithful(st, sent')
  {
    forall i | 0 <= i < |st.slots| ensures FaithfulSlot(st.slots[i], sent') { assert FaithfulSlot(st.slots[i], sent); }
  }
}
