/**
  The receiving side of the DTLS handshake transport in d1_both.cc: a ring of seven
  messages under reassembly, filled from records that the network may have lost,
  reordered, duplicated or split differently each time.
 */
module DtlsReceiver {
  import opened Bits
  import opened Options
  import opened DtlsReassembly

  const RING := 7   // SSL_MAX_HANDSHAKE_FLIGHT

  /** A handshake message as sent. */
  datatype Message = Message(kind: nat, body: seq<Byte>)

  /** hm_header_st with the bytes that follow it. */
  datatype Piece = Piece(kind: nat, msgLen: nat, number: nat, offset: nat, body: seq<Byte>)

  /** The receiver by value. accepted are the pieces that passed every test so far,
      delivered the messages handed on. */
  datatype State = State(readSeq: nat, slots: seq<Option<Held>>, accepted: seq<Piece>, delivered: seq<Message>)

  datatype Outcome = Took(state: State) | Ignored | Fatal

  // ------------------------------------------------------------------ one piece

  /** The piece written over what is held. */
  function Fill(h: Held, p: Piece): Held
    requires |h.data| == h.msgLen && p.offset + |p.body| <= h.msgLen
  {
    Written(h, p.offset, p.body)
  }

  function NewHeld(p: Piece): Held {
    Fresh(p.kind, p.number, p.msgLen)
  }

  predicate Shaped(st: State) {
    |st.slots| == RING && forall i :: 0 <= i < RING && st.slots[i].Some? ==> |st.slots[i].value.data| == st.slots[i].value.msgLen
  }

  /** What dtls1_open_handshake does with one piece. */
  function Take(st: State, p: Piece, maxLen: nat, encrypted: bool): Outcome
    requires Shaped(st)
  {
    if p.offset + |p.body| > p.msgLen || p.msgLen > maxLen then Fatal
    // The encrypted epoch has a single message.
    else if encrypted && p.number != st.readSeq then Fatal
    else if p.number < st.readSeq || p.number > st.readSeq + RING then Ignored
    // A piece exactly seven messages ahead passes the test before and fails here.
    else if p.number - st.readSeq >= RING then Fatal
    else
      var slot := st.slots[p.number % RING];
      if slot.Some? && (slot.value.kind != p.kind || slot.value.msgLen != p.msgLen) then Fatal
      else
        var h := if slot.Some? then slot.value else NewHeld(p);
        Took(st.(slots := st.slots[p.number % RING := Some(Fill(h, p))], accepted := st.accepted + [p]))
  }

  /** dtls1_get_message: the current message, once complete. */
  function Current(st: State): Option<Message>
    requires Shaped(st)
  {
    var slot := st.slots[st.readSeq % RING];
    if slot.Some? && slot.value.complete then Some(Message(slot.value.kind, slot.value.data)) else None
  }

  /** dtls1_next_message. */
  function Advance(st: State): State
    requires Shaped(st) && Current(st).Some?
  {
    State(st.readSeq + 1, st.slots[st.readSeq % RING := None], st.accepted, st.delivered + [Current(st).value])
  }

  // ------------------------------------------------------------------ what is held

  predicate Covers(p: Piece, n: nat, k: nat) {
    p.number == n && p.offset <= k < p.offset + |p.body|
  }

  /** Some accepted piece of message n covers byte k. */
  predicate Covered(accepted: seq<Piece>, n: nat, k: nat) {
    exists i :: 0 <= i < |accepted| && Covers(accepted[i], n, k)
  }

  /** Some accepted piece belongs to message n. */
  predicate Begun(accepted: seq<Piece>, n: nat) {
    exists i :: 0 <= i < |accepted| && accepted[i].number == n
  }

  lemma CoveredAppend(accepted: seq<Piece>, p: Piece, n: nat, k: nat)
    ensures Covered(accepted + [p], n, k) <==> Covered(accepted, n, k) || Covers(p, n, k)
    ensures Begun(accepted + [p], n) <==> Begun(accepted, n) || p.number == n
  {
    var more := accepted + [p];
    if Covered(accepted, n, k) {
      var i :| 0 <= i < |accepted| && Covers(accepted[i], n, k);
      assert Covers(more[i], n, k);
    }
    if Begun(accepted, n) {
      var i :| 0 <= i < |accepted| && accepted[i].number == n;
      assert more[i].number == n;
    }
    assert more[|accepted|] == p;
  }

  /** A slot holds message n, with exactly the bytes that accepted pieces cover; it is
      complete if and only if they cover the whole message. */
  ghost predicate SlotInv(slot: Option<Held>, n: nat, accepted: seq<Piece>) {
    match slot
    case None => !Begun(accepted, n)
    case Some(h) =>
      && h.number == n && |h.data| == h.msgLen && Begun(accepted, n)
      && (h.complete <==> Whole(h.has, h.msgLen))
      && forall k: nat :: k in h.has <==> k < h.msgLen && Covered(accepted, n, k)
  }

  ghost predicate Inv(st: State) {
    && Shaped(st) && |st.delivered| == st.readSeq
    && (forall n: nat :: st.readSeq <= n < st.readSeq + RING ==> SlotInv(st.slots[n % RING], n, st.accepted))
    && forall i :: 0 <= i < |st.accepted| ==> st.accepted[i].number < st.readSeq + RING
  }

  /** Two numbers of one window that share a slot are equal: the assertion on frag->seq. */
  lemma SameSlot(first: nat, m: nat, n: nat)
    requires first <= m < first + RING && first <= n < first + RING && m % RING == n % RING
    ensures m == n
  {
  }

  /** The slots of the window are all the slots. */
  lemma SlotOfWindow(first: nat, i: nat) returns (n: nat)
    requires i < RING
    ensures first <= n < first + RING && n % RING == i
  {
    var r := first % RING;
    n := first + (if i >= r then i - r else i + RING - r);
    assert n == RING * (first / RING + (if i >= r then 0 else 1)) + i;
  }

  lemma FillInv(h: Held, p: Piece, n: nat, accepted: seq<Piece>)
    requires h.number == n == p.number && |h.data| == h.msgLen == p.msgLen && p.offset + |p.body| <= p.msgLen
    requires h.complete <==> Whole(h.has, h.msgLen)
    requires forall k: nat :: k in h.has <==> k < h.msgLen && Covered(accepted, n, k)
    ensures SlotInv(Some(Fill(h, p)), n, accepted + [p])
  {
    hide Covered, Begun;
    CoveredAppend(accepted, p, n, 0);
    forall k: nat ensures k in Fill(h, p).has <==> k < h.msgLen && Covered(accepted + [p], n, k) {
      CoveredAppend(accepted, p, n, k);
    }
  }

  lemma OtherSlot(slot: Option<Held>, p: Piece, n: nat, accepted: seq<Piece>)
    requires SlotInv(slot, n, accepted) && p.number != n
    ensures SlotInv(slot, n, accepted + [p])
  {
    hide Covered, Begun;
    forall k: nat ensures Covered(accepted + [p], n, k) <==> Covered(accepted, n, k) {
      CoveredAppend(accepted, p, n, k);
    }
    CoveredAppend(accepted, p, n, 0);
  }

  lemma NotCovered(accepted: seq<Piece>, n: nat)
    requires !Begun(accepted, n)
    ensures forall k: nat :: !Covered(accepted, n, k)
  {
  }

  /** Accepting a piece keeps the ring in order. */
  lemma TakeInv(st: State, p: Piece, maxLen: nat, encrypted: bool)
    requires Inv(st) && Take(st, p, maxLen, encrypted).Took?
    ensures Inv(Take(st, p, maxLen, encrypted).state)
  {
    hide SlotInv, Fill, NewHeld;
    var st' := Take(st, p, maxLen, encrypted).state;
    var idx := p.number % RING;
    forall n: nat | st.readSeq <= n < st.readSeq + RING ensures SlotInv(st'.slots[n % RING], n, st'.accepted) {
      if n == p.number {
        TakenSlot(st.slots[idx], p, st.accepted);
      } else {
        if n % RING == idx { SameSlot(st.readSeq, n, p.number); }
        OtherSlot(st.slots[n % RING], p, n, st.accepted);
      }
    }
    SlotShape(st'.slots[idx], p.number, st'.accepted);
  }

  lemma SlotShape(slot: Option<Held>, n: nat, accepted: seq<Piece>)
    requires SlotInv(slot, n, accepted)
    ensures slot.Some? ==> |slot.value.data| == slot.value.msgLen && slot.value.number == n
  {
  }

  lemma TakenSlot(slot: Option<Held>, p: Piece, accepted: seq<Piece>)
    requires SlotInv(slot, p.number, accepted) && p.offset + |p.body| <= p.msgLen
    requires slot.Some? ==> slot.value.kind == p.kind && slot.value.msgLen == p.msgLen
    ensures SlotInv(Some(Fill(if slot.Some? then slot.value else NewHeld(p), p)), p.number, accepted + [p])
  {
    hide Fill, Covered, Begun;
    if slot.None? {
      NotCovered(accepted, p.number);
      assert 0 !in NewHeld(p).has;
    }
    FillInv(if slot.Some? then slot.value else NewHeld(p), p, p.number, accepted);
  }

  lemma AdvanceInv(st: State)
    requires Inv(st) && Current(st).Some?
    ensures Inv(Advance(st))
  {
    hide SlotInv;
    var st' := Advance(st);
    var idx, last := st.readSeq % RING, st.readSeq + RING;
    forall n: nat | st'.readSeq <= n < st'.readSeq + RING ensures SlotInv(st'.slots[n % RING], n, st'.accepted) {
      if n == last {
        assert n % RING == idx;
        assert SlotInv(None, n, st.accepted) by { NothingBegun(st.accepted, n); }
      } else {
        if n % RING == idx { SameSlot(st.readSeq, n, st.readSeq); }
      }
    }
  }

  lemma NothingBegun(accepted: seq<Piece>, n: nat)
    requires forall i :: 0 <= i < |accepted| ==> accepted[i].number < n
    ensures SlotInv(None, n, accepted)
  {
  }

  // ------------------------------------------------------------------ honest peers

  /** The piece is cut from the message it names. */
  predicate Honest(p: Piece, sent: seq<Message>) {
    && p.number < |sent|
    && p.kind == sent[p.number].kind
    && p.msgLen == |sent[p.number].body|
    && p.offset + |p.body| <= p.msgLen
    && p.body == sent[p.number].body[p.offset..p.offset + |p.body|]
  }

  ghost predicate FaithfulSlot(slot: Option<Held>, sent: seq<Message>) {
    slot.Some? ==>
      var h := slot.value;
      && h.number < |sent| && h.kind == sent[h.number].kind
      && |h.data| == h.msgLen == |sent[h.number].body|
      && forall k: nat :: k in h.has && k < h.msgLen ==> h.data[k] == sent[h.number].body[k]
  }

  /** Everything held and everything delivered is what the peer sent. */
  ghost predicate Faithful(st: State, sent: seq<Message>) {
    && (forall i :: 0 <= i < |st.slots| ==> FaithfulSlot(st.slots[i], sent))
    && st.delivered <= sent
  }

  lemma TakeFaithful(st: State, p: Piece, maxLen: nat, encrypted: bool, sent: seq<Message>)
    requires Inv(st) && Faithful(st, sent) && Honest(p, sent) && Take(st, p, maxLen, encrypted).Took?
    ensures Faithful(Take(st, p, maxLen, encrypted).state, sent)
  {
    hide SlotInv;
    assert SlotInv(st.slots[p.number % RING], p.number, st.accepted);
    SlotShape(st.slots[p.number % RING], p.number, st.accepted);
    var slot := st.slots[p.number % RING];
    FillFaithful(if slot.Some? then slot.value else NewHeld(p), p, sent);
  }

  lemma FillFaithful(h: Held, p: Piece, sent: seq<Message>)
    requires FaithfulSlot(Some(h), sent) && Honest(p, sent) && h.number == p.number
    ensures FaithfulSlot(Some(Fill(h, p)), sent)
  {
    var h' := Fill(h, p);
    var body := sent[p.number].body;
    forall k: nat | k in h'.has && k < h'.msgLen ensures h'.data[k] == body[k] {
      if !h.complete && p.offset <= k < p.offset + |p.body| {
        assert h'.data[k] == p.body[k - p.offset];
      }
    }
  }

  /** The message a faithful receiver hands on is the next one the peer sent. */
  lemma AdvanceFaithful(st: State, sent: seq<Message>)
    requires Inv(st) && Faithful(st, sent) && Current(st).Some?
    ensures st.readSeq < |sent| && Current(st).value == sent[st.readSeq]
    ensures Faithful(Advance(st), sent)
  {
    assert SlotInv(st.slots[st.readSeq % RING], st.readSeq, st.accepted);
    var h := st.slots[st.readSeq % RING].value;
    assert FaithfulSlot(Some(h), sent);
    assert h.data == sent[st.readSeq].body;
    assert Message(h.kind, h.data) == sent[st.readSeq];
  }

  /** The current message can be handed on exactly when accepted pieces cover all of it. */
  lemma CurrentIffCovered(st: State)
    requires Inv(st)
    ensures Current(st).Some? <==>
      && Begun(st.accepted, st.readSeq)
      && forall k: nat :: k < st.slots[st.readSeq % RING].value.msgLen ==> Covered(st.accepted, st.readSeq, k)
  {
    hide Covered, Begun;
    assert SlotInv(st.slots[st.readSeq % RING], st.readSeq, st.accepted);
  }

  /** An honest piece is fatal exactly if it is too long for this receiver, exactly seven
      messages ahead, or not the single message of the encrypted epoch. */
  lemma HonestFatalIff(st: State, p: Piece, maxLen: nat, encrypted: bool, sent: seq<Message>)
    requires Inv(st) && Faithful(st, sent) && Honest(p, sent)
    ensures Take(st, p, maxLen, encrypted).Fatal? <==>
      p.msgLen > maxLen || p.number == st.readSeq + RING || (encrypted && p.number != st.readSeq)
  {
    if st.readSeq <= p.number < st.readSeq + RING {
      assert SlotInv(st.slots[p.number % RING], p.number, st.accepted);
      assert FaithfulSlot(st.slots[p.number % RING], sent);
    }
  }

  // ------------------------------------------------------------------ the receiver

  /** The ring and its position. The fragments stand in it by value; Fragment.Receive shows
      that the buffers of each do in place what Written does here. */
  class Receiver {
    const maxLen: nat                   // ssl_max_handshake_message_len
    var readSeq: nat                    // handshake_read_seq
    var incoming: seq<Option<Held>>
    var hasMessage: bool                // the current message is being processed
    var hasCcs: bool                    // has_change_cipher_spec
    ghost var accepted: seq<Piece>
    ghost var delivered: seq<Message>

    /** The receiver by value. */
    ghost function Now(): State
      reads this
    {
      State(readSeq, incoming, accepted, delivered)
    }

    ghost predicate Valid()
      reads this
    {
      Inv(Now())
    }

    constructor (maxLen: nat)
      ensures Valid() && readSeq == 0 && delivered == [] && this.maxLen == maxLen && !hasMessage && !hasCcs
      ensures forall sent :: Faithful(Now(), sent)
    {
      this.maxLen := maxLen;
      readSeq, hasMessage, hasCcs := 0, false, false;
      incoming := seq(RING, _ => None);
      accepted, delivered := [], [];
    }

    /** dtls1_get_incoming_message: false for a piece that cannot belong here. A message seen
        for the first time gets an empty fragment in its slot. */
    method GetIncomingMessage(p: Piece) returns (ok: bool)
      requires Valid()
      modifies `incoming
      ensures ok <==>
        && readSeq <= p.number < readSeq + RING
        && (var slot := old(incoming)[p.number % RING];
            slot.Some? ==> slot.value.kind == p.kind && slot.value.msgLen == p.msgLen)
      ensures !ok ==> incoming == old(incoming)
      ensures ok ==>
        var slot := old(incoming)[p.number % RING];
        incoming == old(incoming)[p.number % RING := Some(if slot.Some? then slot.value else NewHeld(p))]
    {
      if p.number < readSeq || p.number - readSeq >= RING { return false; }
      var idx := p.number % RING;
      if incoming[idx].Some? {
        var frag := incoming[idx].value;
        assert frag.number == p.number by { HeldNumber(Now(), p.number); }   // assert(frag->seq == msg_hdr->seq)
        return frag.kind == p.kind && frag.msgLen == p.msgLen;
      }
      incoming := incoming[idx := Some(NewHeld(p))];
      return true;
    }

    /** The loop of dtls1_open_handshake over the pieces of a record; fatal ends the
        connection. */
    method OpenHandshake(pieces: seq<Piece>, encrypted: bool) returns (fatal: bool)
      requires Valid()
      modifies `incoming, `accepted
      ensures Valid() && Opened(old(Now()), pieces, maxLen, encrypted) == (Now(), fatal)
    {
      hide Inv, Fill;
      var i := 0;
      InvShaped(Now());
      assert pieces[0..] == pieces;
      while i < |pieces|
        invariant 0 <= i <= |pieces| && Valid() && Shaped(Now())
        invariant Opened(Now(), pieces[i..], maxLen, encrypted) == Opened(old(Now()), pieces, maxLen, encrypted)
      {
        var p := pieces[i];
        ghost var before := Now();
        assert pieces[i..][0] == p && pieces[i..][1..] == pieces[i + 1..];
        if p.offset + |p.body| > p.msgLen || p.msgLen > maxLen { return true; }
        if encrypted && p.number != readSeq { return true; }
        i := i + 1;
        if p.number < readSeq || p.number > readSeq + RING { continue; }
        var ok := GetIncomingMessage(p);
        if !ok { return true; }
        TakeInv(before, p, maxLen, encrypted);
        accepted := accepted + [p];
        ghost var frag := incoming[p.number % RING].value;
        incoming := incoming[p.number % RING := Some(Fill(incoming[p.number % RING].value, p))];
        assert incoming == before.slots[p.number % RING := Some(Fill(frag, p))];
        InvShaped(Now());
      }
      return false;
    }

    /** dtls1_get_message. */
    method GetMessage() returns (m: Option<Message>)
      requires Valid()
      modifies `hasMessage
      ensures Valid() && m == Current(Now()) && hasMessage == (old(hasMessage) || m.Some?)
    {
      hide Inv;
      InvShaped(Now());
      var slot := incoming[readSeq % RING];
      if slot.None? || !slot.value.complete { return None; }
      hasMessage := true;
      return Some(Message(slot.value.kind, slot.value.data));
    }

    /** dtls1_next_message. */
    method NextMessage()
      requires Valid() && hasMessage && Current(Now()).Some?
      modifies `readSeq, `incoming, `hasMessage, `delivered
      ensures Valid() && Now() == Advance(old(Now())) && !hasMessage
    {
      hide Inv;
      InvShaped(Now());
      AdvanceInv(Now());
      delivered := delivered + [Current(Now()).value];
      incoming := incoming[readSeq % RING := None];
      readSeq := readSeq + 1;
      hasMessage := false;
    }

    /** The ChangeCipherSpec branch of dtls1_open_handshake. */
    method OpenCcs(body: seq<Byte>, encrypted: bool) returns (fatal: bool)
      modifies `hasCcs
      ensures fatal <==> encrypted || body != [1]
      ensures hasCcs == (old(hasCcs) || !fatal)
    {
      if encrypted || |body| != 1 || body[0] != 1 { return true; }
      hasCcs := true;
      return false;
    }

    /** The end of dtls1_open_change_cipher_spec. */
    method TakeCcs() returns (had: bool)
      modifies `hasCcs
      ensures had == old(hasCcs) && !hasCcs
    {
      had := hasCcs;
      hasCcs := false;
    }

    /** dtls_has_unprocessed_handshake_data: a ChangeCipherSpec, or a piece of a message other than
        the one being processed. */
    method HasUnprocessed() returns (unprocessed: bool)
      requires Valid()
      ensures var first := if hasMessage then readSeq + 1 else readSeq;
        unprocessed <==> hasCcs || exists n: nat :: first <= n < readSeq + RING && Begun(accepted, n)
    {
      hide Begun;
      if hasCcs { return true; }
      var current := readSeq % RING;
      var i := 0;
      while i < RING
        invariant 0 <= i <= RING
        invariant forall j :: 0 <= j < i && !(hasMessage && j == current) ==> incoming[j].None?
      {
        if !(hasMessage && i == current) && incoming[i].Some? {
          ghost var n := SlotOfWindow(readSeq, i);
          assert SlotInv(incoming[n % RING], n, accepted);
          return true;
        }
        i := i + 1;
      }
      forall n: nat | readSeq <= n < readSeq + RING && !(hasMessage && n == readSeq) ensures !Begun(accepted, n) {
        assert SlotInv(incoming[n % RING], n, accepted);
        if n % RING == current { SameSlot(readSeq, readSeq, n); }
      }
      return false;
    }
  }

  lemma HeldNumber(st: State, n: nat)
    requires Inv(st) && st.readSeq <= n < st.readSeq + RING && st.slots[n % RING].Some?
    ensures st.slots[n % RING].value.number == n
  {
    SlotShape(st.slots[n % RING], n, st.accepted);
  }

  /** What a record of pieces makes of a receiver, and whether one of them is fatal. */
  function Opened(st: State, pieces: seq<Piece>, maxLen: nat, encrypted: bool): (State, bool)
    requires Shaped(st)
    decreases |pieces|
  {
    if pieces == [] then (st, false)
    else
      match Take(st, pieces[0], maxLen, encrypted)
      case Took(st') => Opened(st', pieces[1..], maxLen, encrypted)
      case Ignored => Opened(st, pieces[1..], maxLen, encrypted)
      case Fatal => (st, true)
  }

  /** Whatever an honest peer's pieces do, they leave the receiver faithful. */
  lemma {:induction false} OpenedFaithful(st: State, pieces: seq<Piece>, maxLen: nat, encrypted: bool, sent: seq<Message>)
    requires Inv(st) && Faithful(st, sent) && forall i :: 0 <= i < |pieces| ==> Honest(pieces[i], sent)
    ensures var st' := Opened(st, pieces, maxLen, encrypted).0;
            Inv(st') && Faithful(st', sent) && st'.delivered == st.delivered && st'.readSeq == st.readSeq
    decreases |pieces|
  {
    hide Inv, Faithful, Honest;
    assert Shaped(st) by { InvShaped(st); }
    if pieces != [] {
      var r := Take(st, pieces[0], maxLen, encrypted);
      if r.Took? {
        TakeInv(st, pieces[0], maxLen, encrypted);
        TakeFaithful(st, pieces[0], maxLen, encrypted, sent);
        OpenedFaithful(r.state, pieces[1..], maxLen, encrypted, sent);
      } else if r.Ignored? {
        OpenedFaithful(st, pieces[1..], maxLen, encrypted, sent);
      }
    }
  }

  lemma InvShaped(st: State)
    requires Inv(st)
    ensures Shaped(st)
  {
  }
}
