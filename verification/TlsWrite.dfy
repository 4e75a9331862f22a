/**
  The TLS record write path: ssl3_write_app_data, do_ssl3_write and ssl3_write_pending of
  s3_pkt.cc, the pending flight of s3_both.cc and the flush of ssl_buffer.cc, over a
  transport that may take any part of what it is given or fail at any call.
 */
module TlsWrite {
  import opened Bits
  import opened Options
  import opened SslBuffer

  const MAX_PLAIN := 16384   // SSL3_RT_MAX_PLAIN_LENGTH
  const MIN_FRAGMENT := 512  // what SSL_set_max_send_fragment clamps to
  const FATAL := 2           // SSL3_AL_FATAL
  const WARNING := 1
  const CLOSE_NOTIFY := 0    // SSL_AD_CLOSE_NOTIFY

  datatype RecordType = ApplicationData | Handshake | Ccs | Alert

  datatype Shutdown = Open | CloseNotifySent | ErrorSent

  /** What the AEAD and the transport do, call by call: the bytes of a sealed record (none
      if sealing fails), the result of a write, of a flush, and where malloc puts memory. */
  datatype Env = Env(seal: (nat, seq<Byte>) -> Option<seq<Byte>>, write: nat -> int, flush: nat -> int, address: nat -> nat)

  /** The plaintext of a record. */
  datatype Record = Record(kind: RecordType, plain: seq<Byte>)

  /** The records of a handshake message: full ones and a last one, at least one in all. */
  function Fragments(msg: seq<Byte>, max: nat): seq<Record>
    requires max > 0
  {
    if |msg| <= max then [Record(Handshake, msg)]
    else [Record(Handshake, msg[..max])] + Fragments(msg[max..], max)
  }

  function Joined(records: seq<Record>): seq<Byte> {
    if records == [] then [] else records[0].plain + Joined(records[1..])
  }

  /** They carry the message, byte for byte, in records of the allowed size. */
  lemma {:induction false} FragmentsCarry(msg: seq<Byte>, max: nat)
    requires max > 0
    ensures Joined(Fragments(msg, max)) == msg && Fragments(msg, max) != []
    ensures forall r :: r in Fragments(msg, max) ==> r.kind.Handshake? && |r.plain| <= max
  {
    if |msg| > max {
      FragmentsCarry(msg[max..], max);
      assert msg == msg[..max] + msg[max..];
      assert Fragments(msg, max)[1..] == Fragments(msg[max..], max);
    }
  }

  function AlertRecord(alert: (nat, nat)): Record {
    Record(Alert, [alert.0 % 256, alert.1 % 256])
  }

  lemma FragmentsStep(rest: seq<Byte>, max: nat, n: nat)
    requires max > 0 && n == if |rest| < max then |rest| else max
    ensures Fragments(rest, max) == [Record(Handshake, rest[..n])] + (if rest[n..] == [] then [] else Fragments(rest[n..], max))
  {
    if |rest| <= max { assert rest[..n] == rest && rest[n..] == []; }
  }

  function AppPart(kind: RecordType, plain: seq<Byte>): seq<Byte> {
    if kind.ApplicationData? then plain else []
  }

  /** The arguments of a write that is under way. */
  datatype Pending = Pending(tot: nat, buf: nat, kind: RecordType, ret: nat)

  /** Sealed bytes are neither lost nor doubled nor reordered: the transport has the first
      ones, the rest waits in the write buffer and then in the flight. */
  predicate Queued(sealed: seq<Byte>, transport: seq<Byte>, buffered: seq<Byte>, flight: seq<Byte>) {
    sealed == transport + buffered + flight
  }

  predicate Grew(a: seq<Byte>, b: seq<Byte>) {
    a <= b
  }

  lemma GrewTwice(a: seq<Byte>, b: seq<Byte>, c: seq<Byte>)
    requires Grew(a, b) && Grew(b, c)
    ensures Grew(a, c)
  {
  }

  lemma AppendGrows(a: seq<Byte>, b: seq<Byte>)
    ensures Grew(a, a) && Grew(a, a + b)
  {
  }

  /** What do_ssl3_write may do to the record under way and to the application bytes sealed. */
  predicate Outcome(was: Option<Pending>, now: Option<Pending>, app: seq<Byte>, app': seq<Byte>, kind: RecordType, plain: seq<Byte>,
                    address: nat, ret: int) {
    if was.Some? then
      app' == app &&
      if ret > 0 then now.None? && ret == was.value.ret && kind == was.value.kind && ret <= |plain| else now == was
    else
      || (ret <= 0 && now.None? && app' == app)
      || (app' == app + AppPart(kind, plain) &&
          if ret > 0 then now.None? && ret == |plain| else now == Some(Pending(|plain|, address, kind, |plain|)))
  }

  /** How many bytes of a buffer are sealed when done of them are, with the record under
      way behind them. */
  function SealedWith(wpend: Option<Pending>, done: nat): nat {
    done + (if wpend.Some? && wpend.value.kind.ApplicationData? then wpend.value.tot else 0)
  }

  /** The application bytes sealed are those reported and the first ones of data. */
  predicate SealedUpTo(wpend: Option<Pending>, app: seq<Byte>, data: seq<Byte>, reported: seq<Byte>, done: nat) {
    SealedWith(wpend, done) <= |data| && app == reported + data[..SealedWith(wpend, done)]
  }

  /** Sealing the next chunk of data goes on where the sealed ones end. */
  lemma ChunkSealed(data: seq<Byte>, reported: seq<Byte>, tot: nat, nw: nat, address: nat, was: Option<Pending>, now: Option<Pending>,
                    app: seq<Byte>, app': seq<Byte>, ret: int)
    requires tot + nw <= |data| && (was.Some? ==> was.value.tot == was.value.ret)
    requires Outcome(was, now, app, app', ApplicationData, data[tot..tot + nw], address, ret) && SealedUpTo(was, app, data, reported, tot)
    ensures SealedUpTo(now, app', data, reported, if ret > 0 then tot + ret else tot)
    ensures SealedWith(was, tot) <= SealedWith(now, if ret > 0 then tot + ret else tot)
  {
    assert data[..tot + nw] == data[..tot] + data[tot..tot + nw];
  }

  lemma OutcomeGrows(was: Option<Pending>, now: Option<Pending>, app: seq<Byte>, app': seq<Byte>, kind: RecordType, plain: seq<Byte>,
                     address: nat, ret: int)
    requires Outcome(was, now, app, app', kind, plain, address, ret)
    ensures Grew(app, app') && ret <= (if ret > 0 then |plain| else 0) && (ret > 0 ==> now.None?) && (was.Some? && ret <= 0 ==> now == was)
    ensures now.Some? && was.None? ==> now.value.tot == |plain|
    ensures was.Some? && ret > 0 ==> ret == was.value.ret && kind == was.value.kind
  {
    AppendGrows(app, AppPart(kind, plain));
  }

  /** How many of the bytes left go into the next record. */
  function Chunk(rest: nat, maxFragment: nat, early: Option<nat>): nat {
    var max := if early.Some? && maxFragment > early.value then early.value else maxFragment;
    if rest > max then max else rest
  }

  /** What callers of the writer do: write application data, add a message, a ChangeCipherSpec or
      an alert to the flight, flush it, or send an alert now or later. */
  datatype Action =
    | Write(data: seq<Byte>, address: nat)
    | Add(msg: seq<Byte>)
    | AddOther(kind: RecordType, plain: seq<Byte>)
    | Flush
    | Send(level: nat, desc: nat)
    | Dispatch

  class Writer {
    const writeBuffer: Buffer
    const maxSendFragment: nat
    const overhead: nat            // SSL_max_seal_overhead
    const prefixLen: nat           // ssl_seal_align_prefix_len
    const partialWrite: bool       // SSL_MODE_ENABLE_PARTIAL_WRITE
    const movingBuffer: bool       // SSL_MODE_ACCEPT_MOVING_WRITE_BUFFER
    var pendingFlight: Option<seq<Byte>>
    var pendingFlightOffset: nat
    var wpend: Option<Pending>     // the wpend_ fields, while wpend_pending
    var wnum: nat
    var shutdown: Shutdown         // write_shutdown
    var alert: Option<(nat, nat)>  // send_alert, while alert_dispatch
    var early: Option<nat>         // in early data: ticket_max_early_data - early_data_written
    var calls: nat
    /** Every record sealed and every byte of their sealed form, in order; every byte the
        transport took, in order; the application bytes sealed, those reported as written,
        and those sealed from the buffer of a write that has not been reported yet. */
    ghost var records: seq<Record>
    ghost var sealed: seq<Byte>
    ghost var transport: seq<Byte>
    ghost var appSealed: seq<Byte>
    ghost var accepted: seq<Byte>
    ghost var claimed: seq<Byte>

    function FlightRest(): seq<Byte>
      reads `pendingFlight, `pendingFlightOffset
    {
      if pendingFlight.None? || pendingFlightOffset > |pendingFlight.value| then [] else pendingFlight.value[pendingFlightOffset..]
    }

    /** The fields are as the code keeps them, also while it flushes. */
    ghost predicate Sound()
      reads `pendingFlight, `pendingFlightOffset, `wpend, writeBuffer
    {
      && writeBuffer.Valid()
      && (if pendingFlight.Some? then pendingFlightOffset <= |pendingFlight.value| else pendingFlightOffset == 0)
      && (wpend.Some? ==> 0 < wpend.value.tot == wpend.value.ret <= maxSendFragment)
      && MIN_FRAGMENT <= maxSendFragment <= MAX_PLAIN && Roomy(overhead + maxSendFragment)
    }

    /** Between two calls an empty write buffer begins where it was aligned. */
    ghost predicate Shaped()
      reads `pendingFlight, `pendingFlightOffset, `wpend, writeBuffer
    {
      Sound() && (writeBuffer.size == 0 ==> writeBuffer.offset < ALIGN)
    }

    /** What was sealed is with the transport, in the write buffer and in the flight, in this
        order, and the write buffer will hand its part over. */
    ghost predicate Ordered()
      reads `sealed, `transport, `pendingFlight, `pendingFlightOffset, `wpend, writeBuffer, writeBuffer.buf
      requires Sound()
    {
      writeBuffer.Straight() && Queued(sealed, transport, writeBuffer.Data(), FlightRest())
    }

    ghost predicate InOrder()
      reads `sealed, `transport, `pendingFlight, `pendingFlightOffset, `wpend, writeBuffer, writeBuffer.buf
    {
      Shaped() && Ordered()
    }

    /** A record under way does not exceed the early data still allowed. */
    ghost predicate EarlyFits()
      reads `early, `wpend
    {
      early.Some? && wpend.Some? && wpend.value.kind.ApplicationData? ==> wpend.value.tot <= early.value
    }

    /** The application bytes sealed are those reported and those claimed, each once. */
    ghost predicate Accounted()
      reads `early, `wpend, `wnum, `appSealed, `accepted, `claimed
    {
      EarlyFits() && appSealed == accepted + claimed && |claimed| == SealedLen(wnum)
    }

    ghost predicate Valid()
      reads this, writeBuffer, writeBuffer.buf
    {
      InOrder() && Accounted()
    }

    constructor (maxSendFragment: nat, overhead: nat, prefixLen: nat, partialWrite: bool, movingBuffer: bool)
      requires MIN_FRAGMENT <= maxSendFragment <= MAX_PLAIN && Roomy(overhead + maxSendFragment)
      ensures Valid() && fresh(writeBuffer) && writeBuffer.buf == null
      ensures records == [] && sealed == transport == [] && appSealed == accepted == claimed == []
    {
      var b := new Buffer();
      writeBuffer := b;
      this.maxSendFragment, this.overhead, this.prefixLen := maxSendFragment, overhead, prefixLen;
      this.partialWrite, this.movingBuffer := partialWrite, movingBuffer;
      pendingFlight, pendingFlightOffset, wpend, wnum, shutdown, alert, early, calls := None, 0, None, 0, Open, None, None, 0;
      records, sealed, transport, appSealed, accepted, claimed := [], [], [], [], [], [];
    }

    /** BIO_write. */
    method BioWrite(data: seq<Byte>, env: Env) returns (ret: int)
      modifies `calls, `transport
      ensures ret <= |data|
      ensures transport == if ret > 0 then old(transport) + data[..ret] else old(transport)
    {
      ret := env.write(calls);
      calls := calls + 1;
      if ret > |data| { ret := |data|; }
      if ret > 0 { transport := transport + data[..ret]; }
    }

    ghost function WindowOf(): (d: seq<Byte>)
      reads this, writeBuffer, writeBuffer.buf
      requires Sound()
      ensures |d| == writeBuffer.size && writeBuffer.offset + |d| <= |writeBuffer.Allocation()|
      ensures d == writeBuffer.Allocation()[writeBuffer.offset..writeBuffer.offset + |d|]
    {
      writeBuffer.Data()
    }

    lemma Structure()
      requires Sound()
      ensures writeBuffer.offset + writeBuffer.size <= |writeBuffer.Allocation()| && writeBuffer.offset < TWO_16
    {
      var d := WindowOf();
    }

    /** One BIO_write of the flush. */
    method FlushSome(env: Env) returns (ret: int)
      requires Sound() && writeBuffer.size > 0
      modifies `calls, `transport, writeBuffer
      ensures Sound() && (old(Ordered()) ==> Ordered()) && writeBuffer.buf == old(writeBuffer.buf) && ret <= old(writeBuffer.size)
      ensures if ret > 0
              then transport == old(transport) + old(WindowOf())[..ret] && writeBuffer.size == old(writeBuffer.size) - ret
                   && writeBuffer.offset == (old(writeBuffer.offset) + ret) % TWO_16
              else transport == old(transport) && writeBuffer.size == old(writeBuffer.size) && writeBuffer.offset == old(writeBuffer.offset)
    {
      hide Queued, Roomy, Buffer.Data;
      var data := writeBuffer.Span();
      ghost var rest, before := FlightRest(), transport;
      ret := BioWrite(data, env);
      if ret <= 0 { return; }
      writeBuffer.Consume(ret);
      if old(Ordered()) { BufferMoves(sealed, before, data, rest, ret); }
    }

    /** The end of the flush. */
    method Emptied()
      requires Sound() && writeBuffer.size == 0
      modifies writeBuffer
      ensures Shaped() && (old(Ordered()) ==> Ordered()) && writeBuffer.buf == null && writeBuffer.size == writeBuffer.cap == 0
    {
      hide Queued, Roomy;
      writeBuffer.Clear();
    }

    /** tls_write_buffer_flush. Whatever the offset, the transport gets what the writes hand over;
        if the offset does not wrap, that is the window in order. */
    method FlushBuffer(env: Env) returns (ret: int, ghost writes: seq<nat>)
      requires Shaped()
      modifies `calls, `transport, writeBuffer
      ensures Shaped() && (writeBuffer.buf == old(writeBuffer.buf) || writeBuffer.buf == null)
      ensures Short(writes, old(writeBuffer.size))
      ensures transport == old(transport) + Handed(old(writeBuffer.Allocation()), old(writeBuffer.offset), writes)
      ensures writeBuffer.size == old(writeBuffer.size) - Sum(writes)
      ensures ret > 0 ==> writeBuffer.size == writeBuffer.cap == 0
      ensures (old(InOrder()) ==> InOrder()) && Grew(old(transport), transport)
    {
      hide Sound, Ordered, Sum, Handed, Short, Grew;
      writes := [];
      AppendGrows(transport, []);
      Structure();
      NoWrites(writeBuffer.Allocation(), writeBuffer.offset, writeBuffer.size, transport);
      while writeBuffer.size != 0
        invariant Sound() && (old(InOrder()) ==> Ordered()) && writeBuffer.buf == old(writeBuffer.buf)
        invariant Short(writes, old(writeBuffer.size)) && writeBuffer.size == old(writeBuffer.size) - Sum(writes)
        invariant writeBuffer.offset == (old(writeBuffer.offset) + Sum(writes)) % TWO_16
        invariant transport == old(transport) + Handed(old(writeBuffer.Allocation()), old(writeBuffer.offset), writes)
        invariant (writes == [] ==> Shaped()) && Grew(old(transport), transport)
        modifies `calls, `transport, writeBuffer
        decreases writeBuffer.size
      {
        ghost var at, data, before := writeBuffer.offset, WindowOf(), transport;
        ret := FlushSome(env);
        AppendGrows(before, if ret > 0 then data[..ret] else []);
        GrewTwice(old(transport), before, transport);
        if ret <= 0 { return; }
        OneWrite(old(writeBuffer.Allocation()), old(writeBuffer.offset), old(writeBuffer.size), writes, ret, at, data, old(transport));
        writes := writes + [ret];
      }
      Emptied();
      ret := 1;
    }

    /** tls_seal_record: of the output only its length is bounded. */
    method Seal(kind: RecordType, plain: seq<Byte>, env: Env) returns (out: Option<seq<Byte>>)
      modifies `calls, `records, `sealed, `appSealed
      ensures out.Some? ==> |out.value| <= |plain| + overhead
      ensures sealed == if out.Some? then old(sealed) + out.value else old(sealed)
      ensures records == old(records) + (if out.Some? then [Record(kind, plain)] else [])
      ensures appSealed == old(appSealed) + (if out.Some? then AppPart(kind, plain) else [])
    {
      out := env.seal(calls, plain);
      calls := calls + 1;
      if out.Some? && |out.value| > |plain| + overhead { out := None; }
      if out.Some? {
        records, sealed, appSealed := records + [Record(kind, plain)], sealed + out.value, appSealed + AppPart(kind, plain);
      }
    }

    /** add_record_to_flight. */
    method AddRecordToFlight(kind: RecordType, plain: seq<Byte>, env: Env) returns (ok: bool)
      requires Shaped() && pendingFlightOffset == 0 && !kind.ApplicationData?
      modifies `calls, `pendingFlight, `records, `sealed, `appSealed
      ensures Shaped() && (old(InOrder()) ==> InOrder()) && (old(Accounted()) ==> Accounted())
      ensures Grew(old(sealed), sealed) && appSealed == old(appSealed)
      ensures records == old(records) + (if ok then [Record(kind, plain)] else [])
    {
      hide Queued, Roomy;
      if pendingFlight.None? { pendingFlight := Some([]); }
      ghost var before, sealed0 := FlightRest(), sealed;
      var out := Seal(kind, plain, env);
      if out.None? { return false; }
      pendingFlight := Some(pendingFlight.value + out.value);
      assert FlightRest() == before + out.value;
      AppendGrows(sealed0, out.value);
      if old(InOrder()) { FlightGrows(sealed0, transport, writeBuffer.Data(), before, out.value); }
      return true;
    }

    /** ssl3_add_message: a message in records of at most maxSendFragment bytes, at least one. */
    method AddMessage(msg: seq<Byte>, env: Env) returns (ok: bool)
      requires Shaped() && pendingFlightOffset == 0
      modifies `calls, `pendingFlight, `records, `sealed, `appSealed
      ensures Shaped() && (old(InOrder()) ==> InOrder()) && (old(Accounted()) ==> Accounted())
      ensures Grew(old(sealed), sealed) && appSealed == old(appSealed)
      ensures ok ==> records == old(records) + Fragments(msg, maxSendFragment)
      ensures old(records) <= records
    {
      hide InOrder, Accounted, Shaped, Fragments;
      var rest := msg;
      ok := true;
      var first := true;
      SizeAllowed();
      while first || rest != []
        invariant Shaped() && (old(InOrder()) ==> InOrder()) && (old(Accounted()) ==> Accounted())
        invariant Grew(old(sealed), sealed) && appSealed == old(appSealed) && ok && old(records) <= records
        invariant if first || rest != []
                  then records + Fragments(rest, maxSendFragment) == old(records) + Fragments(msg, maxSendFragment)
                  else records == old(records) + Fragments(msg, maxSendFragment)
        decreases if first then 1 else 0, |rest|
      {
        first := false;
        var n := if |rest| < maxSendFragment then |rest| else maxSendFragment;
        FragmentsStep(rest, maxSendFragment, n);
        ok := AddRecordToFlight(Handshake, rest[..n], env);
        if !ok { return; }
        rest := rest[n..];
      }
    }

    lemma SizeAllowed()
      requires Shaped()
      ensures maxSendFragment > 0
    {
    }

    /** ssl3_flush_flight: first what the write buffer holds, then the flight. */
    method FlushFlight(env: Env) returns (ret: int)
      requires Shaped()
      modifies `calls, `transport, `pendingFlight, `pendingFlightOffset, writeBuffer
      ensures Shaped() && (old(InOrder()) ==> InOrder()) && (old(Accounted()) ==> Accounted())
      ensures (writeBuffer.buf == null || writeBuffer.buf == old(writeBuffer.buf)) && Grew(old(transport), transport)
      ensures ret > 0 ==> pendingFlight.None?
      ensures old(InOrder()) && ret > 0 && old(pendingFlight).Some? ==> transport == sealed
    {
      hide InOrder, Shaped, Grew, Sum, Short, FlightRest, Accounted;
      AppendGrows(transport, []);
      ghost var t0 := transport;
      if pendingFlight.None? { return 1; }
      if !shutdown.Open? { return -1; }
      if |pendingFlight.value| > 0x7FFF_FFFF { return -1; }
      if writeBuffer.size != 0 {
        ghost var writes;
        ret, writes := FlushBuffer(env);
        if ret <= 0 { return; }
      }
      ghost var t1 := transport;
      ret := WriteFlight(env);
      GrewTwice(t0, t1, transport);
      if ret <= 0 { return; }
      if InOrder() { NothingLeft(); }
      var flushed := env.flush(calls);
      calls := calls + 1;
      if flushed <= 0 { return -1; }
      DropFlight();
      return 1;
    }

    lemma NothingLeft()
      requires InOrder() && writeBuffer.size == 0 && FlightRest() == []
      ensures transport == sealed
    {
    }

    /** pending_flight is freed. */
    method DropFlight()
      requires Shaped() && FlightRest() == []
      modifies `pendingFlight, `pendingFlightOffset
      ensures Shaped() && (old(InOrder()) ==> InOrder()) && pendingFlight.None?
    {
      hide Queued, Buffer.Data, Roomy;
      pendingFlight := None;
      pendingFlightOffset := 0;
    }

    /** The loop that writes the flight itself. */
    method WriteFlight(env: Env) returns (ret: int)
      requires Shaped() && pendingFlight.Some? && writeBuffer.size == 0
      modifies `calls, `transport, `pendingFlightOffset
      ensures Shaped() && (old(InOrder()) ==> InOrder()) && Grew(old(transport), transport)
      ensures transport + FlightRest() == old(transport) + old(FlightRest())
      ensures ret > 0 ==> FlightRest() == []
    {
      hide InOrder, Shaped, Sound, Grew, FlightRest;
      AppendGrows(transport, []);
      FlightShape();
      while pendingFlightOffset < |pendingFlight.value|
        invariant Shaped() && (old(InOrder()) ==> InOrder()) && Grew(old(transport), transport)
        invariant transport + FlightRest() == old(transport) + old(FlightRest())
        modifies `calls, `transport, `pendingFlightOffset
        decreases |pendingFlight.value| - pendingFlightOffset
      {
        ghost var before := transport;
        ret := WriteSome(env);
        GrewTwice(old(transport), before, transport);
        if ret <= 0 { return; }
      }
      FlightShape();
      return 1;
    }

    lemma FlightShape()
      requires Shaped() && pendingFlight.Some?
      ensures pendingFlightOffset == |pendingFlight.value| || pendingFlightOffset < |pendingFlight.value|
      ensures FlightRest() == pendingFlight.value[pendingFlightOffset..]
    {
    }

    /** One BIO_write of the flight. */
    method WriteSome(env: Env) returns (ret: int)
      requires Shaped() && pendingFlight.Some? && writeBuffer.size == 0 && pendingFlightOffset < |pendingFlight.value|
      modifies `calls, `transport, `pendingFlightOffset
      ensures Shaped() && (old(InOrder()) ==> InOrder()) && Grew(old(transport), transport)
      ensures transport + FlightRest() == old(transport) + old(FlightRest())
      ensures pendingFlightOffset == old(pendingFlightOffset) + (if ret > 0 then ret else 0)
    {
      hide Queued, Buffer.Data, Grew, Roomy, FlightRest;
      FlightShape();
      var data := FlightRest();
      ghost var before := transport;
      AppendGrows(before, []);
      ret := BioWrite(data, env);
      if ret <= 0 { return; }
      if old(InOrder()) { FlightMoves(sealed, before, writeBuffer.Data(), data, ret); }
      DropTwice(pendingFlight.value, pendingFlightOffset, ret);
      pendingFlightOffset := pendingFlightOffset + ret;
      FlightShape();
      SplitAt(before, data, ret);
      AppendGrows(before, data[..ret]);
    }

    /** ssl3_write_pending: a retry must be of the same type, at least as long and, unless
        moving is allowed, from the same place. */
    method WritePending(kind: RecordType, address: nat, len: nat, env: Env) returns (ret: int)
      requires Shaped() && wpend.Some?
      modifies `calls, `transport, `wpend, writeBuffer
      ensures Shaped() && (old(InOrder()) ==> InOrder())
      ensures (writeBuffer.buf == null || writeBuffer.buf == old(writeBuffer.buf)) && Grew(old(transport), transport)
      ensures if ret > 0
              then wpend.None? && ret == old(wpend).value.ret && kind == old(wpend).value.kind && old(wpend).value.tot <= len
                   && writeBuffer.size == writeBuffer.cap == 0
              else wpend == old(wpend)
    {
      hide Queued, Buffer.Data, Grew, Sum, Handed, Short, Roomy;
      AppendGrows(transport, []);
      if wpend.value.tot > len || (!movingBuffer && wpend.value.buf != address) || wpend.value.kind != kind { return -1; }
      ghost var writes;
      ret, writes := FlushBuffer(env);
      if ret <= 0 { return; }
      ret := wpend.value.ret;
      wpend := None;
    }

    /** The capacity asked for the flight and a record of len bytes behind it. */
    function NewCap(len: nat): nat
      reads `pendingFlight, `pendingFlightOffset
    {
      |FlightRest()| + len + overhead
    }

    /** A record of len bytes now, if it is sealed at all, goes where the offset does not wrap: it is
        refused, or the buffer, old or new, ends within 2^16 bytes. */
    predicate Fits(len: nat, env: Env)
      reads `pendingFlight, `pendingFlightOffset, `wpend, `calls, writeBuffer
    {
      wpend.Some? || writeBuffer.size > 0 || len == 0 || NewCap(len) > MAX_CAP ||
      (if writeBuffer.cap >= NewCap(len) then writeBuffer.offset
       else AlignedOffset(|FlightRest()| + prefixLen, env.address(calls))) + NewCap(len) <= TWO_16
    }

    /** Wherever malloc puts a buffer, that is so up to 65529 bytes and above 65535; in between only if
        the buffer at hand will do. */
    lemma FitsIff(len: nat)
      requires Shaped() && wpend.None? && writeBuffer.size == 0 && len > 0
      ensures (forall env :: Fits(len, env)) <==>
        || Roomy(NewCap(len)) || NewCap(len) > MAX_CAP
        || (writeBuffer.cap >= NewCap(len) && writeBuffer.offset + NewCap(len) <= TWO_16)
    {
      var h := |FlightRest()| + prefixLen;
      FarthestOffset(h);
      var env := Env((i, s) => None, i => 0, i => 0, i => 1 + 7 * h);
      assert env.address(calls) == 1 + 7 * h;
      if writeBuffer.cap < NewCap(len) {
        assert Fits(len, env) <==> NewCap(len) > MAX_CAP || ALIGN - 1 + NewCap(len) <= TWO_16;
      } else {
        assert Fits(len, env) <==> NewCap(len) > MAX_CAP || writeBuffer.offset + NewCap(len) <= TWO_16;
      }
    }

    /** do_ssl3_write. It seals the plaintext at most once, and only if no earlier record is
        under way; it returns a positive result exactly for a record fully written. */
    method DoWrite(kind: RecordType, plain: seq<Byte>, address: nat, env: Env) returns (ret: int)
      requires Shaped() && |plain| <= maxSendFragment
      modifies `calls, `transport, `wpend, `pendingFlight, `pendingFlightOffset, `records, `sealed, `appSealed
      modifies writeBuffer, writeBuffer.buf
      ensures Shaped() && (old(InOrder()) && old(Fits(|plain|, env)) ==> InOrder())
      ensures writeBuffer.buf == null || writeBuffer.buf == old(writeBuffer.buf) || fresh(writeBuffer.buf)
      ensures Grew(old(transport), transport) && Grew(old(sealed), sealed)
      ensures ret > 0 ==> writeBuffer.size == writeBuffer.cap == 0 && FlightRest() == if old(wpend).None? then [] else old(FlightRest())
      ensures Outcome(old(wpend), wpend, old(appSealed), appSealed, kind, plain, address, ret)
      ensures records == old(records) + (if old(wpend).None? && (ret > 0 || wpend.Some?) then [Record(kind, plain)] else [])
    {
      hide Queued, Buffer.Data, Grew, Roomy, InOrder, Fits;
      AppendGrows(transport, []);
      AppendGrows(sealed, []);
      if wpend.Some? {
        ret := WritePending(kind, address, |plain|, env);
        return;
      }
      if |plain| > MAX_PLAIN || writeBuffer.size > 0 { return -1; }
      if |plain| == 0 { return 0; }
      var ok := SealIntoBuffer(kind, plain, env);
      if !ok { return -1; }
      SetPending(Pending(|plain|, address, kind, |plain|));
      ret := WritePending(kind, address, |plain|, env);
    }

    /** The arguments memorized for a retry. */
    method SetPending(p: Pending)
      requires Shaped() && 0 < p.tot == p.ret <= maxSendFragment
      modifies `wpend
      ensures Shaped() && (old(InOrder()) ==> InOrder()) && wpend == Some(p)
    {
      hide Queued, Buffer.Data;
      wpend := Some(p);
    }

    /** The part of do_ssl3_write that moves the flight into the write buffer and seals a
        record behind it. */
    method SealIntoBuffer(kind: RecordType, plain: seq<Byte>, env: Env) returns (ok: bool)
      requires Shaped() && plain != [] && writeBuffer.size == 0 && wpend.None?
      modifies `calls, `pendingFlight, `pendingFlightOffset, `records, `sealed, `appSealed, writeBuffer, writeBuffer.buf
      ensures Shaped() && (old(InOrder()) && old(Fits(|plain|, env)) ==> InOrder())
      ensures writeBuffer.buf == null || writeBuffer.buf == old(writeBuffer.buf) || fresh(writeBuffer.buf)
      ensures Grew(old(sealed), sealed) && (ok ==> FlightRest() == [])
      ensures records == old(records) + (if ok then [Record(kind, plain)] else [])
      ensures appSealed == old(appSealed) + (if ok then AppPart(kind, plain) else [])
    {
      hide Queued, Buffer.Data, Grew, Roomy, Fits, InOrder;
      AppendGrows(sealed, []);
      ok := MoveFlight(|plain|, env);
      if !ok { return; }
      ghost var sealed0 := sealed;
      ghost var ordered := InOrder() && writeBuffer.offset + writeBuffer.size + |plain| + overhead <= TWO_16;
      if InOrder() { BufferQueued(); }
      var out := Seal(kind, plain, env);
      if out.None? { return false; }
      AppendGrows(sealed0, out.value);
      TakeRecord(out.value, sealed0, ordered);
      return true;
    }

    lemma BufferQueued()
      requires InOrder() && pendingFlight.None?
      ensures Queued(sealed, transport, writeBuffer.Data(), [])
    {
    }

    /** The flight moves into the write buffer, in front of room for a record of len bytes. */
    method MoveFlight(len: nat, env: Env) returns (ok: bool)
      requires Shaped() && len > 0 && writeBuffer.size == 0 && wpend.None?
      modifies `pendingFlight, `pendingFlightOffset, writeBuffer, writeBuffer.buf
      ensures Shaped() && (ok <==> old(NewCap(len)) <= MAX_CAP)
      ensures writeBuffer.buf == null || writeBuffer.buf == old(writeBuffer.buf) || fresh(writeBuffer.buf)
      ensures if ok then pendingFlight.None? && writeBuffer.buf != null && writeBuffer.size + len + overhead <= writeBuffer.cap
              else pendingFlight == old(pendingFlight) && pendingFlightOffset == old(pendingFlightOffset)
      ensures old(InOrder()) && old(Fits(len, env)) ==>
        InOrder() && (ok ==> writeBuffer.offset + writeBuffer.size + len + overhead <= TWO_16)
    {
      hide Buffer.Data, Roomy, Ordered;
      var flightLen := if pendingFlight.Some? then |pendingFlight.value| - pendingFlightOffset else 0;
      var maxOut := len + overhead + flightLen;
      if old(InOrder()) { UnderOrder(); }
      ok := writeBuffer.EnsureCap(flightLen + prefixLen, maxOut, env.address(calls));
      if old(InOrder()) && old(Fits(len, env)) { FromOrder(); }
      if ok && pendingFlight.Some? { AppendFlight(); }
    }

    lemma UnderOrder()
      requires InOrder()
      ensures Queued(sealed, transport, writeBuffer.Data(), FlightRest())
    {
    }

    lemma FromOrder()
      requires Shaped() && writeBuffer.Straight() && Queued(sealed, transport, writeBuffer.Data(), FlightRest())
      ensures InOrder()
    {
    }

    /** The flight goes behind what the write buffer holds. */
    method AppendFlight()
      requires Shaped() && pendingFlight.Some? && writeBuffer.buf != null && writeBuffer.size + |FlightRest()| <= writeBuffer.cap
      modifies `pendingFlight, `pendingFlightOffset, writeBuffer, writeBuffer.buf
      ensures Shaped() && pendingFlight.None? && writeBuffer.size == old(writeBuffer.size) + |old(FlightRest())|
      ensures writeBuffer.buf == old(writeBuffer.buf) && writeBuffer.cap == old(writeBuffer.cap)
      ensures writeBuffer.offset == old(writeBuffer.offset)
      ensures old(InOrder()) && writeBuffer.offset + writeBuffer.size <= TWO_16 ==> InOrder()
    {
      hide Queued, Buffer.Data, Roomy;
      if InOrder() { FlightEnters(sealed, transport, writeBuffer.Data(), FlightRest()); }
      writeBuffer.Append(FlightRest());
      pendingFlight := None;
      pendingFlightOffset := 0;
    }

    /** The sealed record goes behind what the write buffer holds. */
    method TakeRecord(out: seq<Byte>, ghost sealed0: seq<Byte>, ghost ordered: bool)
      requires Shaped() && pendingFlight.None? && writeBuffer.buf != null && writeBuffer.size + |out| <= writeBuffer.cap
      requires sealed == sealed0 + out
      requires ordered ==> writeBuffer.offset + writeBuffer.size + |out| <= TWO_16 && Queued(sealed0, transport, writeBuffer.Data(), [])
      modifies writeBuffer, writeBuffer.buf
      ensures Shaped() && writeBuffer.buf == old(writeBuffer.buf) && (ordered ==> InOrder())
    {
      hide Queued, Buffer.Data, Roomy;
      if ordered { BufferGrows(sealed0, transport, writeBuffer.Data(), out); }
      writeBuffer.Append(out);
    }

    ghost function SealedLen(done: nat): nat
      reads `wpend
    {
      SealedWith(wpend, done)
    }

    ghost predicate SealedFrom(data: seq<Byte>, reported: seq<Byte>, done: nat)
      reads `wpend, `appSealed
    {
      SealedUpTo(wpend, appSealed, data, reported, done)
    }

    /** The next record of a write with rest bytes to go fits: this one, or the one behind the record
        under way if that will not be the last. */
    predicate NextFits(rest: nat, env: Env)
      reads `pendingFlight, `pendingFlightOffset, `wpend, `calls, `early, writeBuffer
    {
      if wpend.None? then Fits(Chunk(rest, maxSendFragment, early), env)
      else LaterFits(rest, wpend.value.ret, early, |FlightRest()|)
    }

    predicate LaterFits(rest: nat, ret: nat, early: Option<nat>, flightLen: nat) {
      var left := if early.Some? && early.value >= ret then Some(early.value - ret) else None;
      rest <= ret || partialWrite ||
      (var newCap := flightLen + Chunk(rest - ret, maxSendFragment, left) + overhead; Roomy(newCap) || newCap > MAX_CAP)
    }

    /** One round of the loop in ssl3_write_app_data; exhausted when no early data is left. */
    method WriteChunk(data: seq<Byte>, address: nat, tot: nat, env: Env, ghost disciplined: bool, ghost reported: seq<Byte>)
      returns (ret: int, exhausted: bool)
      requires Shaped() && EarlyFits() && tot <= |data|
      requires disciplined ==> SealedFrom(data, reported, tot)
      modifies `calls, `transport, `wpend, `pendingFlight, `pendingFlightOffset, `records, `sealed, `appSealed, `early,
               writeBuffer, writeBuffer.buf
      ensures Shaped() && EarlyFits() && (old(InOrder()) && old(NextFits(|data| - tot, env)) ==> InOrder())
      ensures old(NextFits(|data| - tot, env)) && ret > 0 && tot + ret < |data| && !partialWrite ==> NextFits(|data| - tot - ret, env)
      ensures writeBuffer.buf == null || writeBuffer.buf == old(writeBuffer.buf) || fresh(writeBuffer.buf)
      ensures Grew(old(transport), transport) && Grew(old(sealed), sealed) && Grew(old(appSealed), appSealed)
      ensures ret <= |data| - tot && (exhausted ==> ret <= 0)
      ensures ret > 0 ==> wpend.None?
      ensures disciplined ==> SealedFrom(data, reported, if ret > 0 then tot + ret else tot)
      ensures disciplined ==> old(SealedLen(tot)) <= SealedLen(if ret > 0 then tot + ret else tot)
      ensures !exhausted ==> early.Some? == old(early).Some?
      ensures disciplined && old(wpend).Some? && ret <= 0 ==> wpend == old(wpend)
    {
      hide Shaped, Grew, SealedUpTo, SealedWith, Outcome, InOrder, NextFits, Fits, LaterFits, FlightRest;
      AppendGrows(transport, []);
      AppendGrows(sealed, []);
      AppendGrows(appSealed, []);
      var n, max := |data| - tot, maxSendFragment;
      if early.Some? && max > early.value {
        max := early.value;
        if max == 0 {
          early := None;
          return -1, true;
        }
      }
      var nw := if n > max then max else n;
      ghost var a0, was, wasEarly, flightLen, fits := appSealed, wpend, early, |FlightRest()|, NextFits(n, env);
      FirstFits(n, env);
      RecordUnderWay();
      ret := DoWrite(ApplicationData, data[tot..tot + nw], address + tot, env);
      OutcomeGrows(was, wpend, a0, appSealed, ApplicationData, data[tot..tot + nw], address + tot, ret);
      if disciplined { ChunkSealed(data, reported, tot, nw, address + tot, was, wpend, a0, appSealed, ret); }
      if ret > 0 && early.Some? { early := Some(early.value - ret); }
      exhausted := false;
      if fits && ret > 0 && tot + ret < |data| && !partialWrite { NextFitsAgain(n, ret, env, was, wasEarly, flightLen); }
    }

    lemma RecordUnderWay()
      requires Shaped()
      ensures maxSendFragment > 0 && (wpend.Some? ==> wpend.value.tot == wpend.value.ret)
    {
    }

    lemma FirstFits(rest: nat, env: Env)
      ensures NextFits(rest, env) ==>
        if wpend.Some? then LaterFits(rest, wpend.value.ret, early, |FlightRest()|) else Fits(Chunk(rest, maxSendFragment, early), env)
      ensures wpend.Some? ==> forall len :: Fits(len, env)
    {
    }

    /** After a round that wrote a whole record, the next one fits as well. */
    lemma NextFitsAgain(rest: nat, ret: nat, env: Env, was: Option<Pending>, wasEarly: Option<nat>, flightLen: nat)
      requires Shaped() && wpend.None? && writeBuffer.size == writeBuffer.cap == 0 && 0 < ret < rest && !partialWrite
      requires |FlightRest()| == if was.None? then 0 else flightLen
      requires was.Some? ==> ret == was.value.ret && LaterFits(rest, ret, wasEarly, flightLen)
      requires if wasEarly.Some? then ret <= wasEarly.value && early == Some(wasEarly.value - ret) else early.None?
      ensures NextFits(rest - ret, env)
    {
    }

    /** A write that could not be completed is remembered in wnum. */
    method Suspend(data: seq<Byte>, tot: nat, ghost disciplined: bool, ghost before: seq<Byte>)
      requires EarlyFits()
      requires disciplined ==> before <= data && SealedFrom(data, accepted, tot) && |before| <= SealedLen(tot)
      modifies `wnum, `claimed
      ensures disciplined ==> Accounted() && before <= claimed <= data
    {
      hide EarlyFits;
      wnum := tot;
      if disciplined {
        claimed := data[..SealedLen(tot)];
        assert before == data[..|before|];
      }
    }

    /** A completed write reports its bytes. */
    ghost method Report(data: seq<Byte>, tot: nat, disciplined: bool)
      requires EarlyFits() && wpend.None? && tot <= |data| && wnum == 0
      requires disciplined ==> SealedFrom(data, accepted, tot)
      modifies `accepted, `claimed
      ensures disciplined ==> Accounted() && claimed == [] && accepted == old(accepted) + data[..tot]
    {
      hide EarlyFits;
      if disciplined {
        accepted := accepted + data[..tot];
        claimed := [];
        assert accepted + [] == accepted;
      }
    }

    /** The loop of ssl3_write_app_data, from byte tot on. */
    method WriteRest(data: seq<Byte>, address: nat, from: nat, env: Env, ghost disciplined: bool, ghost before: seq<Byte>)
      returns (ret: int, needsHandshake: bool)
      requires Shaped() && EarlyFits() && from <= |data| && wnum == 0
      requires disciplined ==> before <= data && SealedFrom(data, accepted, from) && |before| <= SealedLen(from)
      modifies this, writeBuffer, writeBuffer.buf
      ensures Shaped() && EarlyFits() && (old(InOrder()) && old(NextFits(|data| - from, env)) ==> InOrder())
      ensures writeBuffer.buf == null || writeBuffer.buf == old(writeBuffer.buf) || fresh(writeBuffer.buf)
      ensures Grew(old(transport), transport) && Grew(old(sealed), sealed) && Grew(old(appSealed), appSealed)
      ensures disciplined ==>
        && Accounted() && ret <= |data|
        && (if ret > 0 then claimed == [] && accepted == old(accepted) + data[..ret]
            else accepted == old(accepted) && before <= claimed <= data)
    {
      hide InOrder, Shaped, EarlyFits, Fits, NextFits, Grew, SealedFrom, SealedLen, Accounted;
      AppendGrows(transport, []);
      AppendGrows(sealed, []);
      AppendGrows(appSealed, []);
      var tot := from;
      needsHandshake := false;
      while true
        invariant Shaped() && EarlyFits() && tot <= |data|
        invariant old(InOrder()) && old(NextFits(|data| - from, env)) ==> InOrder() && NextFits(|data| - tot, env)
        invariant writeBuffer.buf == null || writeBuffer.buf == old(writeBuffer.buf) || fresh(writeBuffer.buf)
        invariant Grew(old(transport), transport) && Grew(old(sealed), sealed) && Grew(old(appSealed), appSealed)
        invariant disciplined ==> SealedFrom(data, accepted, tot) && |before| <= SealedLen(tot)
        modifies `calls, `transport, `wpend, `pendingFlight, `pendingFlightOffset, `records, `sealed, `appSealed, `early,
                 writeBuffer, writeBuffer.buf
        decreases |data| - tot
      {
        ghost var t0, s0, a0 := transport, sealed, appSealed;
        ret, needsHandshake := WriteChunk(data, address, tot, env, disciplined, accepted);
        GrewTwice(old(transport), t0, transport);
        GrewTwice(old(sealed), s0, sealed);
        GrewTwice(old(appSealed), a0, appSealed);
        if ret <= 0 { break; }
        tot := tot + ret;
        if tot == |data| || partialWrite { break; }
      }
      if ret <= 0 {
        Suspend(data, tot, disciplined, before);
      } else {
        Report(data, tot, disciplined);
        ret := tot;
      }
    }

    /** ssl3_write_app_data. As long as every retry begins with the bytes already sealed, each
        byte is sealed once and in order: a positive result reports that many more bytes,
        and after any other result the sealed ones are a prefix of data. The transport gets
        them in that order unless the next record does not fit the buffer. */
    method WriteAppData(data: seq<Byte>, address: nat, env: Env) returns (ret: int, needsHandshake: bool)
      requires Shaped() && EarlyFits()
      modifies this, writeBuffer, writeBuffer.buf
      ensures Shaped() && EarlyFits() && (old(InOrder()) && old(WriteFits(|data|, env)) ==> InOrder())
      ensures writeBuffer.buf == null || writeBuffer.buf == old(writeBuffer.buf) || fresh(writeBuffer.buf)
      ensures Grew(old(transport), transport) && Grew(old(sealed), sealed) && Grew(old(appSealed), appSealed)
      ensures old(Accounted()) && old(claimed) <= data ==>
        && Accounted() && ret <= |data|
        && (if ret > 0 then claimed == [] && accepted == old(accepted) + data[..ret]
            else accepted == old(accepted) && old(claimed) <= claimed <= data)
    {
      hide InOrder, Shaped, EarlyFits, NextFits, Grew;
      AppendGrows(transport, []);
      AppendGrows(sealed, []);
      AppendGrows(appSealed, []);
      if !shutdown.Open? { return -1, false; }
      ghost var disciplined := Accounted() && claimed <= data;
      ghost var before := claimed;
      var tot := wnum;
      wnum := 0;
      assert disciplined ==> before == data[..|before|];
      if |data| < tot { return -1, false; }
      ret, needsHandshake := WriteRest(data, address, tot, env, disciplined, before);
    }

    predicate WriteFits(len: nat, env: Env)
      reads `pendingFlight, `pendingFlightOffset, `wpend, `calls, `early, `wnum, writeBuffer
    {
      wnum <= len ==> NextFits(len - wnum, env)
    }

    /** ssl3_dispatch_alert. The alert stays due until its record is written. */
    method DispatchAlert(env: Env) returns (ret: int)
      requires Shaped() && alert.Some?
      modifies this, writeBuffer, writeBuffer.buf
      ensures Shaped() && (old(InOrder()) && old(Fits(2, env)) ==> InOrder())
      ensures (old(EarlyFits()) ==> EarlyFits()) && (old(Accounted()) ==> Accounted())
      ensures writeBuffer.buf == null || writeBuffer.buf == old(writeBuffer.buf) || fresh(writeBuffer.buf)
      ensures Grew(old(transport), transport) && Grew(old(sealed), sealed)
      ensures accepted == old(accepted) && claimed == old(claimed) && shutdown == old(shutdown)
      ensures if ret > 0 then alert.None? else alert == old(alert)
      ensures ret > 0 ==> records == old(records) + (if old(wpend).None? then [AlertRecord(old(alert).value)] else [])
    {
      hide Queued, Grew, InOrder, Fits;
      var sendAlert := [alert.value.0 % 256, alert.value.1 % 256];
      ret := DoWrite(Alert, sendAlert, 0, env);
      if ret <= 0 { return; }
      alert := None;
      return 1;
    }

    /** ssl_send_alert: closes the write side, and sends the alert now if nothing is being
        written. */
    method SendAlert(level: nat, desc: nat, env: Env) returns (ret: int)
      requires Shaped()
      modifies this, writeBuffer, writeBuffer.buf
      ensures Shaped() && (old(InOrder()) && old(Fits(2, env)) ==> InOrder())
      ensures (old(EarlyFits()) ==> EarlyFits()) && (old(Accounted()) ==> Accounted())
      ensures writeBuffer.buf == null || writeBuffer.buf == old(writeBuffer.buf) || fresh(writeBuffer.buf)
      ensures Grew(old(transport), transport) && Grew(old(sealed), sealed)
      ensures accepted == old(accepted) && claimed == old(claimed)
      ensures !shutdown.Open? && (ret > 0 ==> old(shutdown).Open? && alert.None?)
      ensures old(shutdown).Open? && ret <= 0 ==> alert == Some((level, desc))
      ensures ret > 0 && old(wpend).None? ==> records == old(records) + [AlertRecord((level, desc))]
    {
      hide Queued, Grew, InOrder, Fits, Accounted;
      AppendGrows(transport, []);
      AppendGrows(sealed, []);
      if !shutdown.Open? { return -1; }
      shutdown := if level == WARNING && desc == CLOSE_NOTIFY then CloseNotifySent else ErrorSent;
      alert := Some((level, desc));
      if writeBuffer.size != 0 { return -1; }
      ret := DispatchAlert(env);
    }

    /** What the code asserts of its callers. */
    predicate Allowed(a: Action)
      reads `pendingFlightOffset, `alert
    {
      match a
      case Add(_) => pendingFlightOffset == 0
      case AddOther(kind, _) => pendingFlightOffset == 0 && !kind.ApplicationData?
      case Dispatch => alert.Some?
      case _ => true
    }

    /** A write begins with the bytes already sealed for it. */
    ghost predicate Presents(a: Action)
      reads `claimed
    {
      a.Write? ==> claimed <= a.data
    }

    /** What the action may seal fits the write buffer. */
    predicate ActionFits(a: Action, env: Env)
      reads `pendingFlight, `pendingFlightOffset, `wpend, `calls, `early, `wnum, writeBuffer
    {
      match a
      case Write(data, _) => WriteFits(|data|, env)
      case Send(_, _) => Fits(2, env)
      case Dispatch => Fits(2, env)
      case _ => true
    }

    /** Any action in any state: however writes, messages, flushes and alerts are mixed, application
        bytes are sealed once and in order, and what is sealed reaches the transport in that order. */
    method Step(a: Action, env: Env)
      requires Shaped() && EarlyFits() && Allowed(a)
      modifies this, writeBuffer, writeBuffer.buf
      ensures Shaped() && EarlyFits()
      ensures writeBuffer.buf == null || writeBuffer.buf == old(writeBuffer.buf) || fresh(writeBuffer.buf)
      ensures Grew(old(transport), transport) && Grew(old(sealed), sealed)
      ensures old(Accounted()) && old(Presents(a)) ==> Accounted() && Grew(old(accepted), accepted)
      ensures old(InOrder()) && old(ActionFits(a, env)) ==> InOrder()
    {
      hide InOrder, Shaped, Grew, Fits, NextFits, SealedLen, Queued;
      AppendGrows(transport, []);
      AppendGrows(sealed, []);
      AppendGrows(accepted, []);
      match a
      case Write(data, address) =>
        var ret, needsHandshake := WriteAppData(data, address, env);
        AppendGrows(old(accepted), if ret > 0 && ret <= |data| then data[..ret] else []);
      case Add(msg) => var ok := AddMessage(msg, env);
      case AddOther(kind, plain) => var ok := AddRecordToFlight(kind, plain, env);
      case Flush => var ret := FlushFlight(env);
      case Send(level, desc) => var ret := SendAlert(level, desc, env);
      case Dispatch => var ret := DispatchAlert(env);
    }
  }

  lemma NoWrites(allocation: seq<Byte>, offset: nat, size: nat, transport: seq<Byte>)
    requires offset + size <= |allocation| && offset < TWO_16
    ensures Sum([]) == 0 && Short([], size) && offset == (offset + 0) % TWO_16
    ensures transport == transport + Handed(allocation, offset, [])
  {
  }

  /** One more write from where the offset stands. */
  lemma OneWrite(allocation: seq<Byte>, offset: nat, size: nat, writes: seq<nat>, n: nat, at: nat, window: seq<Byte>, t: seq<Byte>)
    requires offset + size <= |allocation| && Short(writes, size) && 0 < n <= size - Sum(writes)
    requires at == (offset + Sum(writes)) % TWO_16 && at + |window| <= |allocation|
    requires |window| == size - Sum(writes) && window == allocation[at..at + |window|]
    ensures Short(writes + [n], size) && Sum(writes + [n]) == Sum(writes) + n
    ensures (at + n) % TWO_16 == (offset + Sum(writes + [n])) % TWO_16
    ensures t + Handed(allocation, offset, writes) + window[..n] == t + Handed(allocation, offset, writes + [n])
  {
    hide Sum, Handed;
    HandedNext(allocation, offset, writes, n);
    assert window[..n] == allocation[at..at + n];
    ModTwice(offset + Sum(writes), n);
  }

  lemma ModTwice(x: nat, n: nat)
    ensures (x % TWO_16 + n) % TWO_16 == (x + n) % TWO_16
  {
  }

  /** The transport takes bytes from the write buffer. */
  lemma BufferMoves(sealed: seq<Byte>, t: seq<Byte>, d: seq<Byte>, f: seq<Byte>, n: nat)
    requires Queued(sealed, t, d, f) && n <= |d|
    ensures Queued(sealed, t + d[..n], d[n..], f) && Grew(t, t + d[..n])
  {
    assert d == d[..n] + d[n..];
  }

  /** The transport takes bytes from the flight, the write buffer being empty. */
  lemma FlightMoves(sealed: seq<Byte>, t: seq<Byte>, d: seq<Byte>, f: seq<Byte>, n: nat)
    requires Queued(sealed, t, d, f) && d == [] && n <= |f|
    ensures Queued(sealed, t + f[..n], d, f[n..]) && Grew(t, t + f[..n])
  {
    assert f == f[..n] + f[n..];
  }

  lemma DropTwice(s: seq<Byte>, a: nat, b: nat)
    requires a + b <= |s|
    ensures s[a..][b..] == s[a + b..]
  {
  }

  lemma FlightGrows(sealed: seq<Byte>, t: seq<Byte>, d: seq<Byte>, f: seq<Byte>, b: seq<Byte>)
    requires Queued(sealed, t, d, f)
    ensures Queued(sealed + b, t, d, f + b) && Grew(sealed, sealed + b)
  {
  }

  /** The flight is copied behind an empty write buffer. */
  lemma FlightEnters(sealed: seq<Byte>, t: seq<Byte>, d: seq<Byte>, f: seq<Byte>)
    requires Queued(sealed, t, d, f)
    ensures Queued(sealed, t, d + f, [])
  {
  }

  lemma BufferGrows(sealed: seq<Byte>, t: seq<Byte>, d: seq<Byte>, b: seq<Byte>)
    requires Queued(sealed, t, d, [])
    ensures Queued(sealed + b, t, d + b, []) && Grew(sealed, sealed + b)
  {
  }

  lemma SplitAt(a: seq<Byte>, b: seq<Byte>, n: nat)
    requires n <= |b|
    ensures a + b[..n] + b[n..] == a + b
  {
  }
}
