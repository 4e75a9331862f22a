/**
  The sending side of the DTLS handshake transport in d1_both.cc: a flight of messages,
  cut into pieces that fit the current MTU, rolled back when a datagram cannot be
  written, and sent again from the start on a timeout.
 */
module DtlsSender {
  import opened Bits
  import opened Options
  import opened DtlsReceiver

  const RECORD_HEADER := 13    // DTLS1_RT_HEADER_LENGTH
  const PIECE_HEADER := 12     // DTLS1_HM_HEADER_LENGTH
  const MIN_MTU := 228         // kMinMTU
  const DEFAULT_MTU := 1472    // kDefaultMTU
  const MAX_QUERIED_MTU := 0x4000_0000

  /** DTLS_OUTGOING_MESSAGE, its serialized header taken apart. */
  datatype Outgoing = Outgoing(isCcs: bool, epoch: nat, kind: nat, number: nat, body: seq<Byte>)

  datatype Record = HandshakeRecord(epoch: nat, piece: Piece) | CcsRecord(epoch: nat)

  /** The lengths of a cipher: MaxOverhead, of which the explicit nonce stands in front. */
  datatype Aead = Aead(explicitNonce: nat, trailer: nat) {
    function MaxOverhead(): nat {
      explicitNonce + trailer
    }
  }

  /** What the transport and the cipher do, call by call: the length a seal adds (none if
      it fails), the result of a write, and the MTU a query reports. */
  datatype Env = Env(seal: nat -> Option<nat>, write: nat -> int, flush: nat -> int, queryMtu: int)

  datatype SealResult = SealError | NoProgress | Partial | Success

  predicate CoversRecord(r: Record, n: nat, k: nat) {
    r.HandshakeRecord? && Covers(r.piece, n, k)
  }

  predicate RecordOf(r: Record, m: Outgoing) {
    if m.isCcs then r == CcsRecord(m.epoch) else r.HandshakeRecord? && r.epoch == m.epoch && r.piece.number == m.number
  }

  ghost predicate CarriesByte(records: seq<Record>, n: nat, k: nat) {
    exists i :: 0 <= i < |records| && CoversRecord(records[i], n, k)
  }

  /** The records carry the first bytes of a message, below upTo. */
  ghost predicate Carries(records: seq<Record>, m: Outgoing, upTo: nat) {
    !m.isCcs ==> forall k: nat :: k < upTo ==> CarriesByte(records, m.number, k)
  }

  ghost predicate HasRecord(records: seq<Record>, m: Outgoing) {
    exists i :: 0 <= i < |records| && RecordOf(records[i], m)
  }

  /** The records carry all of the flight before message written and the first offset bytes
      of that message. */
  ghost predicate Carried(messages: seq<Outgoing>, records: seq<Record>, written: nat, offset: nat) {
    && (forall j :: 0 <= j < written && j < |messages| ==>
        HasRecord(records, messages[j]) && Carries(records, messages[j], |messages[j].body|))
    && (written < |messages| ==> Carries(records, messages[written], offset))
  }

  lemma CarriesMore(records: seq<Record>, r: Record, m: Outgoing, upTo: nat)
    ensures Carries(records, m, upTo) ==> Carries(records + [r], m, upTo)
    ensures HasRecord(records, m) ==> HasRecord(records + [r], m)
  {
    var more := records + [r];
    if Carries(records, m, upTo) && !m.isCcs {
      forall k: nat | k < upTo ensures CarriesByte(more, m.number, k) {
        assert CarriesByte(records, m.number, k);
        var i :| 0 <= i < |records| && CoversRecord(records[i], m.number, k);
        assert more[i] == records[i];
      }
    }
    if HasRecord(records, m) {
      var i :| 0 <= i < |records| && RecordOf(records[i], m);
      assert more[i] == records[i];
    }
  }

  /** A piece that goes on where the records stopped carries the message further. */
  lemma CarriesPiece(records: seq<Record>, r: Record, m: Outgoing, offset: nat)
    requires Carries(records, m, offset) && RecordOf(r, m) && !m.isCcs && r.piece.offset == offset
    ensures Carries(records + [r], m, offset + |r.piece.body|) && HasRecord(records + [r], m)
  {
    var more := records + [r];
    assert more[|records|] == r;
    forall k: nat | k < offset + |r.piece.body| ensures CarriesByte(more, m.number, k) {
      if k < offset {
        assert CarriesByte(records, m.number, k);
        var i :| 0 <= i < |records| && CoversRecord(records[i], m.number, k);
        assert more[i] == records[i];
      } else {
        assert CoversRecord(more[|records|], m.number, k);
      }
    }
  }

  lemma CarriedMore(messages: seq<Outgoing>, records: seq<Record>, r: Record, written: nat, offset: nat)
    requires Carried(messages, records, written, offset)
    ensures Carried(messages, records + [r], written, offset)
  {
    hide Carries, HasRecord;
    forall j | 0 <= j < written && j < |messages|
      ensures HasRecord(records + [r], messages[j]) && Carries(records + [r], messages[j], |messages[j].body|)
    {
      CarriesMore(records, r, messages[j], |messages[j].body|);
    }
    if written < |messages| { CarriesMore(records, r, messages[written], offset); }
  }

  /** The records with one more message finished. */
  lemma CarriedNext(messages: seq<Outgoing>, records: seq<Record>, r: Record, written: nat, offset: nat)
    requires Carried(messages, records, written, offset) && written < |messages| && RecordOf(r, messages[written])
    requires messages[written].isCcs || (r.piece.offset == offset && offset + |r.piece.body| == |messages[written].body|)
    ensures Carried(messages, records + [r], written + 1, 0)
  {
    hide Carries, HasRecord;
    CarriedMore(messages, records, r, written, offset);
    var m := messages[written];
    if m.isCcs { CcsCarried(records, r, m); } else { CarriesPiece(records, r, m, offset); }
    if written + 1 < |messages| { CarriesNothing(records + [r], messages[written + 1]); }
  }

  lemma CarriedPart(messages: seq<Outgoing>, records: seq<Record>, r: Record, written: nat, offset: nat)
    requires Carried(messages, records, written, offset) && written < |messages| && RecordOf(r, messages[written])
    requires !messages[written].isCcs && r.piece.offset == offset
    ensures Carried(messages, records + [r], written, offset + |r.piece.body|)
  {
    hide Carries, HasRecord;
    CarriedMore(messages, records, r, written, offset);
    CarriesPiece(records, r, messages[written], offset);
  }

  lemma CcsCarried(records: seq<Record>, r: Record, m: Outgoing)
    requires RecordOf(r, m) && m.isCcs
    ensures HasRecord(records + [r], m) && Carries(records + [r], m, |m.body|)
  {
    assert (records + [r])[|records|] == r;
  }

  lemma CarriesNothing(records: seq<Record>, m: Outgoing)
    ensures Carries(records, m, 0)
  {
  }

  lemma CarriedStart(messages: seq<Outgoing>)
    ensures Carried(messages, [], 0, 0)
  {
  }

  // ------------------------------------------------------------------ where a pass stands

  /** A place in the flight: a message, and how many of its bytes are behind. */
  datatype Position = Position(written: nat, offset: nat)

  predicate Proper(messages: seq<Outgoing>, at: Position) {
    && at.written <= |messages|
    && if at.written < |messages| && !messages[at.written].isCcs
       then at.offset < |messages[at.written].body| || at.offset == 0
       else at.offset == 0
  }

  /** What is left of the message there. */
  function Unsent(messages: seq<Outgoing>, at: Position): nat
    requires Proper(messages, at)
  {
    if at.written < |messages| then |messages[at.written].body| - at.offset else 0
  }

  predicate Later(a: Position, b: Position) {
    a.written > b.written || (a.written == b.written && a.offset > b.offset)
  }

  /** Where the flight goes on behind this record, if it is the next piece of the flight. */
  function Follow(messages: seq<Outgoing>, at: Position, r: Record): (p: Option<Position>)
    ensures p.Some? && Proper(messages, at) ==> Proper(messages, p.value) && Later(p.value, at)
  {
    if at.written >= |messages| || !RecordOf(r, messages[at.written]) then None
    else if r.CcsRecord? then Some(Position(at.written + 1, 0))
    else
      var body, n := messages[at.written].body, |r.piece.body|;
      if r.piece.kind != messages[at.written].kind || r.piece.offset != at.offset || r.piece.msgLen != |body| then None
      else if at.offset + n > |body| then None
      else if r.piece.body != body[at.offset..at.offset + n] then None
      else if at.offset + n == |body| then Some(Position(at.written + 1, 0))
      else if n > 0 then Some(Position(at.written, at.offset + n)) else None
  }

  /** Where records end that are the flight from its beginning, in order and without a gap. */
  function After(messages: seq<Outgoing>, records: seq<Record>): Option<Position> {
    if records == [] then Some(Position(0, 0))
    else
      var at := After(messages, records[..|records| - 1]);
      if at.None? then None else Follow(messages, at.value, records[|records| - 1])
  }

  /** The records are the flight, cut into pieces. */
  predicate WholeFlight(messages: seq<Outgoing>, records: seq<Record>) {
    After(messages, records) == Some(Position(|messages|, 0))
  }

  lemma AfterNext(messages: seq<Outgoing>, records: seq<Record>, r: Record)
    ensures After(messages, records + [r]) ==
      var at := After(messages, records); if at.None? then None else Follow(messages, at.value, r)
    ensures Size(records + [r]) == Size(records) + RecordSize(r)
  {
    assert (records + [r])[..|records|] == records;
  }

  /** Such records carry all of the flight up to there, byte for byte. */
  lemma {:induction false} AfterCarries(messages: seq<Outgoing>, records: seq<Record>)
    requires After(messages, records).Some?
    ensures var p := After(messages, records).value; p.written <= |messages| && Carried(messages, records, p.written, p.offset)
  {
    hide Carried;
    if records == [] {
      CarriedStart(messages);
    } else {
      var front, r := records[..|records| - 1], records[|records| - 1];
      AfterCarries(messages, front);
      assert front + [r] == records;
      var at := After(messages, front).value;
      var p := Follow(messages, at, r).value;
      if p.written > at.written {
        CarriedNext(messages, front, r, at.written, at.offset);
      } else {
        CarriedPart(messages, front, r, at.written, at.offset);
      }
    }
  }

  /** A message added at the end changes nothing. */
  lemma {:induction false} AfterLonger(messages: seq<Outgoing>, m: Outgoing, records: seq<Record>)
    requires After(messages, records).Some?
    ensures After(messages + [m], records) == After(messages, records)
  {
    if records != [] { AfterLonger(messages, m, records[..|records| - 1]); }
  }

  /** Bytes and ends of messages. */
  function RecordSize(r: Record): nat {
    if r.CcsRecord? then 1 else |r.piece.body| + if r.piece.offset + |r.piece.body| == r.piece.msgLen then 1 else 0
  }

  function Size(records: seq<Record>): nat {
    if records == [] then 0 else Size(records[..|records| - 1]) + RecordSize(records[|records| - 1])
  }

  function MessageSize(m: Outgoing): nat {
    if m.isCcs then 1 else |m.body| + 1
  }

  function FlightSize(messages: seq<Outgoing>, written: nat): nat
    requires written <= |messages|
  {
    if written == 0 then 0 else FlightSize(messages, written - 1) + MessageSize(messages[written - 1])
  }

  lemma {:induction false} FlightSizeLonger(messages: seq<Outgoing>, m: Outgoing, written: nat)
    requires written <= |messages|
    ensures FlightSize(messages + [m], written) == FlightSize(messages, written)
  {
    if written > 0 { FlightSizeLonger(messages, m, written - 1); }
  }

  /** Of the flight up to at, everything was handed over but lost bytes and ends of messages. */
  predicate Tracked(messages: seq<Outgoing>, pass: seq<Record>, at: Position, lost: nat) {
    && Proper(messages, at)
    && Size(pass) + lost == FlightSize(messages, at.written) + at.offset
    && (lost == 0 ==> After(messages, pass) == Some(at))
  }

  lemma {:induction false} AfterSize(messages: seq<Outgoing>, records: seq<Record>)
    requires After(messages, records).Some?
    ensures var p := After(messages, records).value;
      Proper(messages, p) && Size(records) == FlightSize(messages, p.written) + p.offset
  {
    if records != [] {
      AfterSize(messages, records[..|records| - 1]);
      FollowSize(messages, After(messages, records[..|records| - 1]).value, records[|records| - 1]);
    }
  }

  lemma FollowSize(messages: seq<Outgoing>, at: Position, r: Record)
    requires Proper(messages, at) && Follow(messages, at, r).Some?
    ensures var p := Follow(messages, at, r).value;
      FlightSize(messages, p.written) + p.offset == FlightSize(messages, at.written) + at.offset + RecordSize(r) && RecordSize(r) > 0
  {
  }

  /** A pass that is through was the whole flight if and only if nothing was lost. */
  lemma WholeFlightIff(messages: seq<Outgoing>, pass: seq<Record>, lost: nat)
    requires Tracked(messages, pass, Position(|messages|, 0), lost)
    ensures WholeFlight(messages, pass) <==> lost == 0
    ensures lost == 0 ==> Carried(messages, pass, |messages|, 0)
  {
    hide Carried;
    if WholeFlight(messages, pass) {
      AfterSize(messages, pass);
      AfterCarries(messages, pass);
    }
  }

  lemma TrackedLonger(messages: seq<Outgoing>, m: Outgoing, pass: seq<Record>, at: Position, lost: nat)
    requires Tracked(messages, pass, at, lost)
    ensures Tracked(messages + [m], pass, at, lost)
  {
    FlightSizeLonger(messages, m, at.written);
    if lost == 0 { AfterLonger(messages, m, pass); }
  }

  // ------------------------------------------------------------------ sealing

  /** What sealing looks at. */
  datatype View = View(messages: seq<Outgoing>, epoch: nat, aead: Aead, lastAead: Aead)

  function EpochAead(v: View, epoch: nat): Option<Aead> {
    if v.epoch >= 1 && epoch == v.epoch - 1 then Some(v.lastAead) else if epoch == v.epoch then Some(v.aead) else None
  }

  /** dtls_seal_record, of which only the length matters here. */
  function RecordLen(inLen: nat, a: Aead, env: Env, calls: nat): Option<nat> {
    var added := env.seal(calls);
    if added.None? || added.value > a.MaxOverhead() || inLen + added.value >= 0x1_0000 then None
    else Some(RECORD_HEADER + inLen + added.value)
  }

  /** How an attempt to seal the next record ends. */
  datatype Attempt = Attempt(result: SealResult, len: nat, record: Option<Record>, calls: nat)

  function SealNext(v: View, at: Position, maxOut: nat, env: Env, calls: nat): (a: Attempt)
    requires Proper(v.messages, at) && at.written < |v.messages|
    ensures (a.result.SealError? || a.result.NoProgress? <==> a.record.None?) && (a.result.NoProgress? ==> a.calls == calls)
    ensures a.record.Some? ==>
      var p := Follow(v.messages, at, a.record.value);
      0 < a.len <= maxOut && p.Some? && (a.result.Success? <==> p.value.written > at.written)
  {
    var msg := v.messages[at.written];
    var aead := EpochAead(v, msg.epoch);
    if aead.None? then Attempt(SealError, 0, None, calls)
    else
      var overhead := RECORD_HEADER + aead.value.MaxOverhead();
      if maxOut < (if msg.isCcs then 1 else PIECE_HEADER + 1) + overhead then Attempt(NoProgress, 0, None, calls)
      else
        var left, room := |msg.body| - at.offset, maxOut - overhead - if msg.isCcs then 0 else PIECE_HEADER;
        var todo := if left > room then room else left;
        var len := RecordLen(if msg.isCcs then 1 else PIECE_HEADER + todo, aead.value, env, calls);
        if len.None? then Attempt(SealError, 0, None, calls + 1)
        else if msg.isCcs then Attempt(Success, len.value, Some(CcsRecord(msg.epoch)), calls + 1)
        else
          var piece := Piece(msg.kind, |msg.body|, msg.number, at.offset, msg.body[at.offset..at.offset + todo]);
          Attempt(if todo == left then Success else Partial, len.value, Some(HandshakeRecord(msg.epoch, piece)), calls + 1)
  }

  /** A packet under construction, and whether it made progress. */
  datatype Packet = Packet(ok: bool, total: nat, records: seq<Record>, at: Position, calls: nat)

  /** The packet with the records that still fit; not ok if one could not be sealed. */
  function SealPacket(v: View, p: Packet, maxOut: nat, env: Env): (q: Packet)
    requires Proper(v.messages, p.at) && p.total <= maxOut
    ensures Proper(v.messages, q.at) && q.total <= maxOut && (q.at == p.at || Later(q.at, p.at))
    ensures q.ok && !p.ok ==> Later(q.at, p.at) && (q.at.written == p.at.written ==> Unsent(v.messages, q.at) < Unsent(v.messages, p.at))
    decreases |v.messages| - p.at.written
  {
    if p.at.written >= |v.messages| then p
    else
      var a := SealNext(v, p.at, maxOut - p.total, env, p.calls);
      match a.result
      case SealError => p.(ok := false, calls := a.calls)
      case NoProgress => p
      case Partial => Sealed(v, p, a)
      case Success => SealPacket(v, Sealed(v, p, a), maxOut, env)
  }

  function Sealed(v: View, p: Packet, a: Attempt): Packet
    requires a.record.Some? && Follow(v.messages, p.at, a.record.value).Some?
  {
    Packet(true, p.total + a.len, p.records + [a.record.value], Follow(v.messages, p.at, a.record.value).value, a.calls)
  }

  /** How far sending has come: what was handed over, and the size of what was sealed behind it
      and not handed over. */
  datatype Progress = Progress(ret: int, at: Position, calls: nat, handed: seq<Record>, lost: nat)

  /** send_flight: packet by packet. One that cannot be written is taken back, one that cannot be
      completed is not. */
  function SendFrom(v: View, g: Progress, mtu: nat, env: Env): (r: Progress)
    requires Proper(v.messages, g.at)
    ensures Proper(v.messages, r.at) && (r.ret == 1 ==> r.at == Position(|v.messages|, 0))
    decreases |v.messages| - g.at.written, Unsent(v.messages, g.at)
  {
    if g.at.written == |v.messages| then g.(ret := if env.flush(g.calls) <= 0 then -1 else 1)
    else
      var q := SealPacket(v, Packet(false, 0, [], g.at, g.calls), mtu, env);
      if !q.ok then Progress(-1, q.at, q.calls, g.handed, g.lost + Size(q.records))
      else
        var result := env.write(q.calls);
        if result <= 0 then g.(ret := result, calls := q.calls + 1)
        else SendFrom(v, Progress(0, q.at, q.calls + 1, g.handed + q.records, g.lost), mtu, env)
  }

  lemma {:induction false} PacketTracked(v: View, p: Packet, maxOut: nat, env: Env, pass: seq<Record>, lost: nat)
    requires p.total <= maxOut && Tracked(v.messages, pass + p.records, p.at, lost)
    ensures var q := SealPacket(v, p, maxOut, env); Tracked(v.messages, pass + q.records, q.at, lost) && p.records <= q.records
    ensures |p.records| <= Size(p.records) ==> var q := SealPacket(v, p, maxOut, env); |q.records| <= Size(q.records)
    decreases |v.messages| - p.at.written
  {
    hide Follow, After, Size, FlightSize, RecordSize, SealNext;
    if p.at.written < |v.messages| {
      var a := SealNext(v, p.at, maxOut - p.total, env, p.calls);
      if a.record.Some? {
        var r := a.record.value;
        assert pass + p.records + [r] == pass + (p.records + [r]);
        AfterNext(v.messages, pass + p.records, r);
        AfterNext(v.messages, p.records, r);
        FollowSize(v.messages, p.at, r);
        if a.result.Success? { PacketTracked(v, Sealed(v, p, a), maxOut, env, pass, lost); }
      }
    }
  }

  lemma {:induction false} SendTracked(v: View, g: Progress, mtu: nat, env: Env, pass: seq<Record>, lost: nat)
    requires Tracked(v.messages, pass + g.handed, g.at, lost + g.lost)
    ensures var r := SendFrom(v, g, mtu, env);
      Tracked(v.messages, pass + r.handed, r.at, lost + r.lost) && g.handed <= r.handed && g.lost <= r.lost
    decreases |v.messages| - g.at.written, Unsent(v.messages, g.at)
  {
    hide After, Size, FlightSize, SealPacket;
    if g.at.written < |v.messages| {
      var p := Packet(false, 0, [], g.at, g.calls);
      var q := SealPacket(v, p, mtu, env);
      var handed := pass + g.handed;
      assert handed + [] == handed;
      PacketTracked(v, p, mtu, env, handed, lost + g.lost);
      if !q.ok {
        PassSize(handed, q.records);
      } else if env.write(q.calls) > 0 {
        assert handed + q.records == pass + (g.handed + q.records);
        SendTracked(v, Progress(0, q.at, q.calls + 1, g.handed + q.records, g.lost), mtu, env, pass, lost);
      }
    }
  }

  lemma {:induction false} PassSize(a: seq<Record>, b: seq<Record>)
    ensures Size(a + b) == Size(a) + Size(b)
  {
    if b == [] {
      assert a + b == a;
    } else {
      PassSize(a, b[..|b| - 1]);
      assert (a + b)[..|a + b| - 1] == a + b[..|b| - 1];
    }
  }

  /** One call of send_flight. */
  function Sending(v: View, at: Position, calls: nat, mtu: nat, shutdown: bool, env: Env): Progress
    requires Proper(v.messages, at)
  {
    var start := Progress(if shutdown then -1 else 0, at, calls, [], 0);
    if shutdown then start else SendFrom(v, start, mtu, env)
  }

  /** A call that succeeds lost nothing itself. */
  lemma {:induction false} NothingLost(v: View, g: Progress, mtu: nat, env: Env)
    requires Proper(v.messages, g.at) && SendFrom(v, g, mtu, env).ret == 1
    ensures SendFrom(v, g, mtu, env).lost == g.lost
    decreases |v.messages| - g.at.written, Unsent(v.messages, g.at)
  {
    hide SealPacket, Size;
    if g.at.written < |v.messages| {
      var q := SealPacket(v, Packet(false, 0, [], g.at, g.calls), mtu, env);
      NothingLost(v, Progress(0, q.at, q.calls + 1, g.handed + q.records, g.lost), mtu, env);
    }
  }

  lemma TrackedStart(messages: seq<Outgoing>)
    ensures Tracked(messages, [], Position(0, 0), 0)
  {
  }

  /** The MTU after dtls1_update_mtu. */
  function QueriedMtu(mtu: nat, query: bool, env: Env): nat {
    if mtu >= MIN_MTU || !query then mtu
    else if MIN_MTU <= env.queryMtu <= MAX_QUERIED_MTU then env.queryMtu else DEFAULT_MTU
  }

  lemma Associate(a: seq<Record>, b: seq<Record>, c: seq<Record>)
    ensures a + b + c == a + (b + c)
  {
  }

  lemma AtEnd(messages: seq<Outgoing>, at: Position)
    requires Proper(messages, at) && at.written >= |messages|
    ensures at == Position(|messages|, 0)
  {
  }

  lemma FollowsBy(messages: seq<Outgoing>, at: Position, r: Record)
    requires Proper(messages, at) && Follow(messages, at, r).Some?
    ensures var p := Follow(messages, at, r).value;
      Proper(messages, p) &&
      if p.written > at.written then p == Position(at.written + 1, 0)
      else r.HandshakeRecord? && p == Position(at.written, at.offset + |r.piece.body|)
  {
  }

  // ------------------------------------------------------------------ honesty

  /** An outgoing message is one of those added, under its number. */
  predicate Known(m: Outgoing, sent: seq<Message>) {
    !m.isCcs ==> m.number < |sent| && sent[m.number] == Message(m.kind, m.body)
  }

  predicate HonestRecord(r: Record, sent: seq<Message>) {
    r.HandshakeRecord? ==> Honest(r.piece, sent)
  }

  lemma {:induction false} PacketHonest(v: View, p: Packet, maxOut: nat, env: Env, sent: seq<Message>)
    requires Proper(v.messages, p.at) && p.total <= maxOut && forall m :: m in v.messages ==> Known(m, sent)
    requires forall r :: r in p.records ==> HonestRecord(r, sent)
    ensures forall r :: r in SealPacket(v, p, maxOut, env).records ==> HonestRecord(r, sent)
    decreases |v.messages| - p.at.written
  {
    hide SealNext;
    if p.at.written < |v.messages| {
      var a := SealNext(v, p.at, maxOut - p.total, env, p.calls);
      if a.record.Some? {
        FollowHonest(v.messages, p.at, a.record.value, sent);
        if a.result.Success? { PacketHonest(v, Sealed(v, p, a), maxOut, env, sent); }
      }
    }
  }

  lemma FollowHonest(messages: seq<Outgoing>, at: Position, r: Record, sent: seq<Message>)
    requires Follow(messages, at, r).Some? && forall m :: m in messages ==> Known(m, sent)
    ensures HonestRecord(r, sent)
  {
    assert messages[at.written] in messages;
  }

  lemma {:induction false} SendHonest(v: View, g: Progress, mtu: nat, env: Env, sent: seq<Message>)
    requires Proper(v.messages, g.at) && forall m :: m in v.messages ==> Known(m, sent)
    requires forall r :: r in g.handed ==> HonestRecord(r, sent)
    ensures forall r :: r in SendFrom(v, g, mtu, env).handed ==> HonestRecord(r, sent)
    decreases |v.messages| - g.at.written, Unsent(v.messages, g.at)
  {
    hide SealPacket, Known, HonestRecord;
    if g.at.written < |v.messages| {
      var p := Packet(false, 0, [], g.at, g.calls);
      var q := SealPacket(v, p, mtu, env);
      PacketHonest(v, p, mtu, env, sent);
      if q.ok && env.write(q.calls) > 0 { SendHonest(v, Progress(0, q.at, q.calls + 1, g.handed + q.records, g.lost), mtu, env, sent); }
    }
  }

  class Sender {
    var messages: seq<Outgoing>     // outgoing_messages
    var written: nat                // outgoing_written
    var offset: nat                 // outgoing_offset
    var complete: bool              // outgoing_messages_complete
    var hasReply: bool              // flight_has_reply
    var writeSeq: nat               // handshake_write_seq
    var epoch: nat                  // w_epoch
    var aead: Aead                  // aead_write_ctx
    var lastAead: Aead              // last_aead_write_ctx
    var mtu: nat
    var queryMtu: bool              // SSL_OP_NO_QUERY_MTU is not set
    var calls: nat                  // calls into the environment so far
    /** The transport: all records handed to it. */
    var network: seq<Record>
    /** All messages ever added, the records of the current pass over the flight, and the size of
        what the pass has left out: records behind which, in the same packet, a seal failed. */
    ghost var sent: seq<Message>
    ghost var pass: seq<Record>
    ghost var lost: nat

    ghost predicate Valid()
      reads this
    {
      && |messages| <= RING && writeSeq == |sent|
      && (forall m :: m in messages ==> Known(m, sent))
      && (forall r :: r in network ==> HonestRecord(r, sent))
      && (forall r :: r in pass ==> r in network)
      && Tracked(messages, pass, Position(written, offset), lost)
    }

    ghost function Now(): View
      reads this
    {
      View(messages, epoch, aead, lastAead)
    }

    constructor (aead: Aead, mtu: nat, queryMtu: bool)
      ensures Valid() && sent == [] && network == [] && messages == [] && lost == 0
    {
      messages, written, offset, complete, hasReply, writeSeq, epoch := [], 0, 0, false, false, 0, 0;
      this.aead, lastAead, this.mtu, this.queryMtu, calls := aead, aead, mtu, queryMtu, 0;
      sent, network, pass, lost := [], [], [], 0;
    }

    /** dtls_clear_outgoing_messages. */
    method ClearOutgoing()
      requires Valid()
      modifies this
      ensures Valid() && messages == [] && !complete && !hasReply
      ensures sent == old(sent) && network == old(network) && writeSeq == old(writeSeq) && epoch == old(epoch)
    {
      hide Tracked, Known, HonestRecord;
      messages, written, offset, complete, hasReply := [], 0, 0, false, false;
      pass, lost := [], 0;
      TrackedStart([]);
    }

    /** add_outgoing: the first message of a new flight discards the old one. */
    method AddOutgoing(isCcs: bool, kind: nat, body: seq<Byte>) returns (ok: bool)
      requires Valid()
      modifies this
      ensures Valid() && network == old(network) && epoch == old(epoch)
      ensures ok <==> (if old(complete) then 0 else |old(messages)|) < RING
      ensures sent == old(sent) + (if ok && !isCcs then [Message(kind, body)] else [])
      ensures ok ==> messages == (if old(complete) then [] else old(messages)) +
                                 [Outgoing(isCcs, epoch, kind, old(writeSeq), if isCcs then [] else body)]
    {
      hide Tracked;
      assert sent + [] == sent;
      if complete { ClearOutgoing(); }
      if |messages| >= RING { return false; }
      var m := Outgoing(isCcs, epoch, kind, writeSeq, if isCcs then [] else body);
      TrackedLonger(messages, m, pass, Position(written, offset), lost);
      ghost var before, sent' := messages, sent + (if isCcs then [] else [Message(kind, body)]);
      assert forall m :: m in messages ==> Known(m, sent');
      assert forall r :: r in network ==> HonestRecord(r, sent');
      if !isCcs { writeSeq := writeSeq + 1; }
      sent := sent';
      messages := messages + [m];
      return true;
    }

    /** seal_next_message: as much of the next message as fits, sealed into one record. */
    method SealNextMessage(maxOut: nat, env: Env) returns (r: SealResult, len: nat, record: Option<Record>)
      requires Proper(messages, Position(written, offset)) && written < |messages|
      modifies `offset, `calls
      ensures var a := SealNext(old(Now()), Position(written, old(offset)), maxOut, env, old(calls));
        r == a.result && len == a.len && record == a.record && calls == a.calls
      ensures offset == match r
                        case Partial => old(offset) + |record.value.piece.body|
                        case Success => 0
                        case _ => old(offset)
    {
      var msg := messages[written];
      var useAead := aead;
      if epoch >= 1 && msg.epoch == epoch - 1 {
        useAead := lastAead;
      } else if msg.epoch != epoch {
        return SealError, 0, None;
      }
      var overhead := RECORD_HEADER + useAead.MaxOverhead();
      var prefix := RECORD_HEADER + useAead.explicitNonce;
      if msg.isCcs {
        if maxOut < 1 + overhead { return NoProgress, 0, None; }
        var sealed := SealRecord(1, useAead, env);
        if sealed.None? { return SealError, 0, None; }
        return Success, sealed.value, Some(CcsRecord(msg.epoch));
      }
      if maxOut < PIECE_HEADER + 1 + overhead || maxOut < prefix { return NoProgress, 0, None; }
      var todo := |msg.body| - offset;
      if todo > maxOut - PIECE_HEADER - overhead { todo := maxOut - PIECE_HEADER - overhead; }
      var piece := Piece(msg.kind, |msg.body|, msg.number, offset, msg.body[offset..offset + todo]);
      var sealed := SealRecord(PIECE_HEADER + todo, useAead, env);
      if sealed.None? { return SealError, 0, None; }
      record := Some(HandshakeRecord(msg.epoch, piece));
      if todo == |msg.body| - offset {
        offset := 0;
        return Success, sealed.value, record;
      }
      offset := offset + todo;
      return Partial, sealed.value, record;
    }

    method SealRecord(inLen: nat, a: Aead, env: Env) returns (len: Option<nat>)
      modifies `calls
      ensures len == RecordLen(inLen, a, env, old(calls)) && calls == old(calls) + 1
    {
      var added := env.seal(calls);
      calls := calls + 1;
      if added.None? || added.value > a.MaxOverhead() || inLen + added.value >= 0x1_0000 { return None; }
      return Some(RECORD_HEADER + inLen + added.value);
    }

    /** seal_next_packet: records up to the end of the flight or of the space. */
    method SealNextPacket(maxOut: nat, env: Env) returns (ok: bool, total: nat, packet: seq<Record>)
      requires Proper(messages, Position(written, offset)) && written < |messages|
      modifies `written, `offset, `calls
      ensures Packet(ok, total, packet, Position(written, offset), calls) ==
        SealPacket(old(Now()), Packet(false, 0, [], Position(old(written), old(offset)), old(calls)), maxOut, env)
    {
      hide SealNext, Follow, Proper, RecordOf, Later;
      ghost var v, start := Now(), Packet(false, 0, [], Position(written, offset), calls);
      var madeProgress := false;
      total := 0;
      packet := [];
      while written < |messages|
        invariant Proper(messages, Position(written, offset)) && total <= maxOut
        invariant SealPacket(v, Packet(madeProgress, total, packet, Position(written, offset), calls), maxOut, env)
               == SealPacket(v, start, maxOut, env)
        modifies `written, `offset, `calls
        decreases |messages| - written
      {
        ghost var p := Packet(madeProgress, total, packet, Position(written, offset), calls);
        var r, len, record := SealNextMessage(maxOut - total, env);
        if record.Some? { FollowsBy(messages, p.at, record.value); }
        match r {
          case SealError => return false, total, packet;
          case NoProgress => break;
          case Partial =>
            packet := packet + [record.value];
            total := total + len;
            return true, total, packet;
          case Success =>
            packet := packet + [record.value];
            total := total + len;
            madeProgress := true;
        }
        written := written + 1;
      }
      return madeProgress, total, packet;
    }

    /** dtls1_update_mtu. */
    method UpdateMtu(env: Env)
      modifies `mtu
      ensures mtu == QueriedMtu(old(mtu), queryMtu, env) && (queryMtu ==> mtu >= MIN_MTU)
    {
      if mtu < MIN_MTU && queryMtu {
        mtu := if MIN_MTU <= env.queryMtu <= MAX_QUERIED_MTU then env.queryMtu else DEFAULT_MTU;
      }
    }

    /** send_flight: packet by packet; one that cannot be written is taken back, one that
        cannot be sealed is not. */
    method SendFlight(shutdown: bool, env: Env) returns (ret: int)
      requires Valid()
      modifies `written, `offset, `calls, `mtu, `network, `pass, `lost
      ensures Valid() && mtu == if shutdown then old(mtu) else QueriedMtu(old(mtu), queryMtu, env)
      ensures var g := Sending(old(Now()), Position(old(written), old(offset)), old(calls), mtu, shutdown, env);
        ret == g.ret && Position(written, offset) == g.at && calls == g.calls &&
        network == old(network) + g.handed && pass == old(pass) + g.handed && lost == old(lost) + g.lost
      ensures ret == 1 ==> written == |messages| && offset == 0
    {
      hide Tracked, Known, HonestRecord, SendFrom;
      assert network + [] == network && pass + [] == pass;
      if shutdown { return -1; }
      UpdateMtu(env);
      ghost var goal := Goal(env);
      ret := SendPackets(env);
    }

    /** The packets that are left, and a flush. */
    method SendPackets(env: Env) returns (ret: int)
      requires Proper(messages, Position(written, offset))
      modifies `written, `offset, `calls, `network, `pass, `lost
      ensures var g := SendFrom(old(Now()), Progress(0, Position(old(written), old(offset)), old(calls), [], 0), mtu, env);
        ret == g.ret && Position(written, offset) == g.at && calls == g.calls &&
        network == old(network) + g.handed && pass == old(pass) + g.handed && lost == old(lost) + g.lost
    {
      hide SealPacket, Size, Proper, Unsent;
      ghost var v, handed: seq<Record> := Now(), [];
      ghost var goal := SendFrom(v, Progress(0, Position(written, offset), calls, [], 0), mtu, env);
      assert network + [] == network && pass + [] == pass;
      while written < |messages|
        invariant Proper(messages, Position(written, offset)) && lost == old(lost)
        invariant network == old(network) + handed && pass == old(pass) + handed
        invariant SendFrom(v, Progress(0, Position(written, offset), calls, handed, 0), mtu, env) == goal
        modifies `written, `offset, `calls, `network, `pass, `lost
        decreases |messages| - written, Unsent(messages, Position(written, offset))
      {
        var oldWritten, oldOffset := written, offset;
        var ok, len, packet := SealNextPacket(mtu, env);
        if !ok {
          lost := lost + Size(packet);
          return -1;
        }
        var result := env.write(calls);
        calls := calls + 1;
        if result <= 0 {
          written, offset := oldWritten, oldOffset;
          return result;
        }
        network := network + packet;
        pass := pass + packet;
        Associate(old(network), handed, packet);
        Associate(old(pass), handed, packet);
        handed := handed + packet;
      }
      AtEnd(messages, Position(written, offset));
      if env.flush(calls) <= 0 { return -1; }
      return 1;
    }

    /** Where sending will end, and that all will be well then. */
    ghost method Goal(env: Env) returns (g: Progress)
      requires Valid()
      ensures Proper(messages, Position(written, offset))
      ensures g == SendFrom(Now(), Progress(0, Position(written, offset), calls, [], 0), mtu, env)
      ensures Tracked(messages, pass + g.handed, g.at, lost + g.lost)
      ensures forall r :: r in network + g.handed ==> HonestRecord(r, sent)
      ensures forall r :: r in pass + g.handed ==> r in network + g.handed
    {
      hide Known, HonestRecord, SealPacket, Size, After, FlightSize, SendFrom;
      var start := Progress(0, Position(written, offset), calls, [], 0);
      assert pass + [] == pass;
      SendTracked(Now(), start, mtu, env, pass, lost);
      SendHonest(Now(), start, mtu, env, sent);
      g := SendFrom(Now(), start, mtu, env);
    }

    /** dtls1_flush_flight. If it succeeds, the flight was handed over in order and without a gap, if
        and only if nothing was lost in this pass. */
    method FlushFlight(shutdown: bool, env: Env) returns (ret: int)
      requires Valid()
      modifies `complete, `written, `offset, `calls, `mtu, `network, `pass, `lost
      ensures Valid() && complete && mtu == if shutdown then old(mtu) else QueriedMtu(old(mtu), queryMtu, env)
      ensures var g := Sending(old(Now()), Position(old(written), old(offset)), old(calls), mtu, shutdown, env);
        ret == g.ret && Position(written, offset) == g.at && calls == g.calls &&
        network == old(network) + g.handed && pass == old(pass) + g.handed && lost == old(lost) + g.lost
      ensures ret == 1 ==> (WholeFlight(messages, pass) <==> lost == 0)
      ensures ret == 1 && lost == 0 ==> Carried(messages, pass, |messages|, 0)
    {
      hide Carried, Tracked, WholeFlight, SendFrom, Known, HonestRecord;
      complete := true;
      ret := SendFlight(shutdown, env);
      if ret == 1 { WholeFlightIff(messages, pass, lost); }
    }

    /** dtls1_retransmit_outgoing_messages: success means the whole flight, unless a seal failed in
        this very call. */
    method Retransmit(shutdown: bool, env: Env) returns (ret: int)
      requires Valid()
      modifies `written, `offset, `calls, `mtu, `network, `pass, `lost
      ensures Valid() && mtu == if shutdown then old(mtu) else QueriedMtu(old(mtu), queryMtu, env)
      ensures var g := Sending(old(Now()), Position(0, 0), old(calls), mtu, shutdown, env);
        ret == g.ret && Position(written, offset) == g.at && calls == g.calls &&
        network == old(network) + g.handed && pass == [] + g.handed && lost == 0 + g.lost
      ensures ret == 1 ==> written == |messages| && lost == 0 && WholeFlight(messages, pass) && Carried(messages, pass, |messages|, 0)
    {
      hide Carried, Tracked, WholeFlight, SendFrom, Known, HonestRecord;
      written, offset, pass, lost := 0, 0, [], 0;
      TrackedStart(messages);
      ret := SendFlight(shutdown, env);
      assert [] + pass == pass;
      if ret == 1 {
        NothingLost(Now(), Progress(0, Position(0, 0), old(calls), [], 0), mtu, env);
        WholeFlightIff(messages, pass, lost);
      }
    }

    /** What dtls1_next_message notes of the flight: a message has been read after it was complete. */
    method NoteReply()
      requires Valid()
      modifies `hasReply
      ensures Valid() && hasReply == (old(hasReply) || complete)
    {
      if complete { hasReply := true; }
    }

    /** dtls1_on_handshake_complete: the flight stays, to be sent again, unless the peer answered it. */
    method OnHandshakeComplete()
      requires Valid()
      modifies this
      ensures Valid() && sent == old(sent) && network == old(network)
      ensures messages == if old(hasReply) then [] else old(messages)
    {
      if hasReply { ClearOutgoing(); }
    }

    /** The MTU half of dtls1_check_timeout_num. */
    method ReduceMtu(fallback: int)
      requires Valid()
      modifies `mtu
      ensures Valid() && mtu == if MIN_MTU <= fallback <= MAX_QUERIED_MTU && queryMtu then fallback else old(mtu)
    {
      if queryMtu && MIN_MTU <= fallback <= MAX_QUERIED_MTU { mtu := fallback; }
    }

    /** dtls1_set_write_state. */
    method SetWriteState(next: Aead)
      requires Valid()
      modifies `epoch, `aead, `lastAead
      ensures Valid() && epoch == old(epoch) + 1 && aead == next && lastAead == old(aead)
    {
      epoch := epoch + 1;
      lastAead := aead;
      aead := next;
    }
  }

  /** Once a pass over the flight is through, its records carry every byte of every message
      of the flight, whatever the MTUs were and however often writing stopped. */
  lemma PassIsComplete(messages: seq<Outgoing>, pass: seq<Record>, j: nat)
    requires Carried(messages, pass, |messages|, 0) && j < |messages| && !messages[j].isCcs
    ensures exists i :: 0 <= i < |pass| && pass[i].HandshakeRecord? && pass[i].piece.number == messages[j].number
    ensures forall k: nat :: k < |messages[j].body| ==> CarriesByte(pass, messages[j].number, k)
  {
    assert HasRecord(pass, messages[j]) && Carries(pass, messages[j], |messages[j].body|);
    var i :| 0 <= i < |pass| && RecordOf(pass[i], messages[j]);
  }

  // ------------------------------------------------------------------ a message left out

  /** Two messages of a byte each. */
  function TwoMessages(): View {
    View([Outgoing(false, 0, 1, 0, [7]), Outgoing(false, 0, 2, 1, [8])], 0, Aead(0, 0), Aead(0, 0))
  }

  /** A cipher that fails once, on the second record. */
  function FailsOnce(): Env {
    Env(i => if i == 1 then None else Some(0), i => 1, i => 1, 0)
  }

  function PieceOf(n: nat): Record
    requires n < 2
  {
    var m := TwoMessages().messages[n];
    HandshakeRecord(0, Piece(m.kind, 1, m.number, 0, m.body))
  }

  /** The first call reports the failure. The second returns 1, although the first message was never
      handed over. */
  lemma LeftOut()
    ensures var v, env := TwoMessages(), FailsOnce();
      var first := Sending(v, Position(0, 0), 0, DEFAULT_MTU, false, env);
      var second := Sending(v, first.at, first.calls, DEFAULT_MTU, false, env);
      first.ret == -1 && first.handed == [] && second.ret == 1 && second.at == Position(2, 0) && second.handed == [PieceOf(1)] &&
      !Carried(v.messages, first.handed + second.handed, 2, 0)
  {
    hide Carried, SealPacket, Size;
    FirstPacket();
    SecondPacket();
    NotCarried();
    assert [] + [PieceOf(1)] == [PieceOf(1)];
  }

  lemma FirstPacket()
    ensures SealPacket(TwoMessages(), Packet(false, 0, [], Position(0, 0), 0), DEFAULT_MTU, FailsOnce())
         == Packet(false, 26, [PieceOf(0)], Position(1, 0), 2)
  {
    hide SealNext;
    var v, env := TwoMessages(), FailsOnce();
    var p := Packet(true, 26, [PieceOf(0)], Position(1, 0), 1);
    SealsFirst();
    assert [] + [PieceOf(0)] == [PieceOf(0)];
    assert SealPacket(v, p, DEFAULT_MTU, env) == p.(ok := false, calls := 2);
  }

  lemma SealsFirst()
    ensures SealNext(TwoMessages(), Position(0, 0), DEFAULT_MTU, FailsOnce(), 0) == Attempt(Success, 26, Some(PieceOf(0)), 1)
    ensures SealNext(TwoMessages(), Position(1, 0), DEFAULT_MTU - 26, FailsOnce(), 1) == Attempt(SealError, 0, None, 2)
    ensures Follow(TwoMessages().messages, Position(0, 0), PieceOf(0)) == Some(Position(1, 0))
  {
    var m := TwoMessages().messages[0];
    assert m.body[0..1] == m.body;
  }

  lemma SecondPacket()
    ensures SealPacket(TwoMessages(), Packet(false, 0, [], Position(1, 0), 2), DEFAULT_MTU, FailsOnce())
         == Packet(true, 26, [PieceOf(1)], Position(2, 0), 3)
  {
    hide SealNext;
    SealsSecond();
    assert [] + [PieceOf(1)] == [PieceOf(1)];
  }

  lemma SealsSecond()
    ensures SealNext(TwoMessages(), Position(1, 0), DEFAULT_MTU, FailsOnce(), 2) == Attempt(Success, 26, Some(PieceOf(1)), 3)
    ensures Follow(TwoMessages().messages, Position(1, 0), PieceOf(1)) == Some(Position(2, 0))
  {
    var m := TwoMessages().messages[1];
    assert m.body[0..1] == m.body;
  }

  lemma NotCarried()
    ensures !Carried(TwoMessages().messages, [PieceOf(1)], 2, 0)
  {
    var m := TwoMessages().messages[0];
    assert !HasRecord([PieceOf(1)], m);
  }
}
